/** The entity of the service and the string constants it answers with. */
module Models {

  /** Sort attribute of the listing endpoint (an enum in the service). */
  datatype DogSortingAttribute = Name | Weight | TailLength

  /** A stored dog. `weight` is a number whose exact type the service does not
      fix; it is modelled as an exact real (no NaN, no rounding). */
  datatype Dog = Dog(name: string, color: string, tailLength: int, weight: real)

  /** Range of a C# `int`. */
  const Int32Min: int := -0x8000_0000
  const Int32Max: int := 0x7FFF_FFFF
  type Int32 = x: int | Int32Min <= x <= Int32Max

  /** Two's-complement truncation of an unchecked C# `int` operation: the one
      `int` congruent to `x` modulo 2^32. */
  function Wrap32(x: int): (r: Int32)
    ensures (r - x) % 0x1_0000_0000 == 0
    ensures Int32Min <= x <= Int32Max ==> r == x
  {
    var q := (x - Int32Min) / 0x1_0000_0000;
    assert (x - Int32Min) % 0x1_0000_0000 + Int32Min - x == -q * 0x1_0000_0000;
    (x - Int32Min) % 0x1_0000_0000 + Int32Min
  }

  // Response and sorting constants
  const VersionMessage: string := "Dogshouseservice.Version1.0.1"
  const DogExists: string := "A dog with the same name already exists."
  const InvalidDogData: string := "Invalid tail length or weight."
  const Ascending: string := "asc"
  const Descending: string := "desc"
}
