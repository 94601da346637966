/**
 * The three-way comparators of src/silk/compare.c and the contract every comparator
 * handed to a container's find or sort is expected to meet.
 */
module Compare {
  /** The integer types SILK_COMPARE_DEFINE is instantiated at, on an LP64 platform. */
  datatype IntType =
    | Int | Int8 | Int16 | Int32 | Int64 | IntMax | IntPtr
    | UInt | UInt8 | UInt16 | UInt32 | UInt64 | UIntMax | UIntPtr

  /** Smallest value of the C type. */
  function MinOf(t: IntType): int
  {
    match t
    case Int => -0x8000_0000
    case Int8 => -0x80
    case Int16 => -0x8000
    case Int32 => -0x8000_0000
    case Int64 | IntMax | IntPtr => -0x8000_0000_0000_0000
    case _ => 0
  }

  /** Largest value of the C type. */
  function MaxOf(t: IntType): int
  {
    match t
    case Int | Int32 => 0x7fff_ffff
    case Int8 => 0x7f
    case Int16 => 0x7fff
    case Int64 | IntMax | IntPtr => 0x7fff_ffff_ffff_ffff
    case UInt | UInt32 => 0xffff_ffff
    case UInt8 => 0xff
    case UInt16 => 0xffff
    case UInt64 | UIntMax | UIntPtr => 0xffff_ffff_ffff_ffff
  }

  predicate InRange(t: IntType, x: int)
  {
    MinOf(t) <= x <= MaxOf(t)
  }

  /**
   * The body of every integer instance: 1 when x > y, -1 when x < y, 0 otherwise.
   * The userdata argument is ignored by the source and is not modelled.
   */
  function Compare(x: int, y: int): (r: int)
    ensures r > 0 <==> x > y
    ensures r < 0 <==> x < y
    ensures r == 0 <==> x == y
    ensures -1 <= r <= 1
  {
    if x > y then 1 else if x < y then -1 else 0
  }

  /** The instance for type t: Compare on the values that type can hold. */
  function CompareAs(t: IntType, x: int, y: int): (r: int)
    requires InRange(t, x) && InRange(t, y)
    ensures r > 0 <==> x > y
    ensures r < 0 <==> x < y
    ensures -1 <= r <= 1
    ensures r == -Compare(y, x)
  {
    Compare(x, y)
  }

  /**
   * What a container's sort needs of its comparator: the sign of cmp(x, y) is the
   * opposite of the sign of cmp(y, x), and "cmp(x, y) <= 0" is transitive.  Together
   * these make "cmp(x, y) <= 0" a total preorder and cmp(x, x) == 0.
   */
  ghost predicate ValidComparator<T(!new)>(cmp: (T, T) -> int)
  {
    (forall x, y :: cmp(x, y) < 0 <==> cmp(y, x) > 0) &&
    (forall x, y, z :: cmp(x, y) <= 0 && cmp(y, z) <= 0 ==> cmp(x, z) <= 0)
  }

  /** Consequences of ValidComparator the sorting proofs use. */
  lemma ComparatorFacts<T(!new)>(cmp: (T, T) -> int)
    requires ValidComparator(cmp)
    ensures forall x :: cmp(x, x) == 0
    ensures forall x, y :: cmp(x, y) <= 0 || cmp(y, x) <= 0
    ensures forall x, y :: cmp(x, y) >= 0 ==> cmp(y, x) <= 0
  {
  }

  /** The integer comparator meets the contract the sorts ask for. */
  lemma CompareIsValid()
    ensures ValidComparator(Compare)
  {
  }

  /** The extremes of every type compare in order, as the test sweeps near MIN and MAX expect. */
  lemma CompareAtTypeBounds(t: IntType)
    ensures CompareAs(t, MinOf(t), MaxOf(t)) == -1
    ensures CompareAs(t, MaxOf(t), MinOf(t)) == 1
    ensures CompareAs(t, MaxOf(t), MaxOf(t)) == 0
  {
  }
}
