/** The comparer the listing sorts with: one field chosen by the sort
    attribute, compared in ascending order and negated for "desc". */
module Comparer {
  import opened Wrappers
  import opened Models
  import opened Text
  import Linq

  /** `int.CompareTo`. */
  function CompareInt(a: int, b: int): int {
    if a < b then -1 else if a == b then 0 else 1
  }

  /** `CompareTo` on the weight (an ordinary number, never NaN). */
  function CompareReal(a: real, b: real): int {
    if a < b then -1 else if a == b then 0 else 1
  }

  /** Ordinal string comparison, character by character and then by length,
      reduced to its sign. */
  function CompareOrdinal(s: string, t: string): (r: int)
    ensures -1 <= r <= 1
  {
    if s == [] then (if t == [] then 0 else -1)
    else if t == [] then 1
    else if s[0] < t[0] then -1
    else if s[0] > t[0] then 1
    else CompareOrdinal(s[1..], t[1..])
  }

  /** `string.Compare(s, t, StringComparison.OrdinalIgnoreCase)`: ordinal
      comparison of the upper-cased strings. */
  function CompareOrdinalIgnoreCase(s: string, t: string): (r: int)
    ensures -1 <= r <= 1
    ensures r < 0 <==> LexLess(ToUpper(s), ToUpper(t))
    ensures r == 0 <==> ToUpper(s) == ToUpper(t)
  {
    OrdinalIsLexicographic(ToUpper(s), ToUpper(t));
    CompareOrdinal(ToUpper(s), ToUpper(t))
  }

  /** Lexicographic "strictly before", stated by the first position where the
      strings differ (or where the shorter one ends). */
  ghost predicate LexLess(s: string, t: string) {
    exists k | 0 <= k <= |s| && k <= |t| ::
      s[..k] == t[..k] && (k == |s| < |t| || (k < |s| && k < |t| && s[k] < t[k]))
  }

  lemma {:induction false} OrdinalAntisymmetric(s: string, t: string)
    ensures CompareOrdinal(s, t) == -CompareOrdinal(t, s)
  {
    if s != [] && t != [] && s[0] == t[0] {
      OrdinalAntisymmetric(s[1..], t[1..]);
    }
  }

  lemma {:induction false} OrdinalZeroIffEqual(s: string, t: string)
    ensures CompareOrdinal(s, t) == 0 <==> s == t
  {
    if s != [] && t != [] && s[0] == t[0] {
      OrdinalZeroIffEqual(s[1..], t[1..]);
      assert s == [s[0]] + s[1..] && t == [t[0]] + t[1..];
    }
  }

  lemma {:induction false} OrdinalTransitive(s: string, t: string, u: string)
    requires CompareOrdinal(s, t) <= 0 && CompareOrdinal(t, u) <= 0
    ensures CompareOrdinal(s, u) <= 0
  {
    if s != [] && s[0] == t[0] && t[0] == u[0] {
      OrdinalTransitive(s[1..], t[1..], u[1..]);
    }
  }

  lemma {:induction false} NegativeIsLexLess(s: string, t: string)
    requires CompareOrdinal(s, t) < 0
    ensures LexLess(s, t)
  {
    if s == [] || s[0] < t[0] {
      assert s[..0] == t[..0];
    } else {
      NegativeIsLexLess(s[1..], t[1..]);
      var k :| 0 <= k <= |s[1..]| && k <= |t[1..]| && s[1..][..k] == t[1..][..k]
        && (k == |s[1..]| < |t[1..]| || (k < |s[1..]| && k < |t[1..]| && s[1..][k] < t[1..][k]));
      assert s[..k + 1] == [s[0]] + s[1..][..k];
      assert t[..k + 1] == [t[0]] + t[1..][..k];
    }
  }

  lemma {:induction false} LexLessAtIsNegative(s: string, t: string, k: nat)
    requires k <= |s| && k <= |t| && s[..k] == t[..k]
    requires k == |s| < |t| || (k < |s| && k < |t| && s[k] < t[k])
    ensures CompareOrdinal(s, t) < 0
  {
    if k > 0 {
      assert s[0] == s[..k][0] == t[..k][0] == t[0];
      assert s[1..][..k - 1] == s[..k][1..] == t[..k][1..] == t[1..][..k - 1];
      LexLessAtIsNegative(s[1..], t[1..], k - 1);
    }
  }

  /** The ordinal comparison is negative exactly when `s` is lexicographically
      before `t`, zero exactly when they are equal. */
  lemma OrdinalIsLexicographic(s: string, t: string)
    ensures CompareOrdinal(s, t) < 0 <==> LexLess(s, t)
    ensures CompareOrdinal(s, t) == 0 <==> s == t
  {
    OrdinalZeroIffEqual(s, t);
    if CompareOrdinal(s, t) < 0 {
      NegativeIsLexLess(s, t);
    }
    if LexLess(s, t) {
      var k :| 0 <= k <= |s| && k <= |t| && s[..k] == t[..k]
        && (k == |s| < |t| || (k < |s| && k < |t| && s[k] < t[k]));
      LexLessAtIsNegative(s, t, k);
    }
  }

  /** The comparer object: its two fields are fixed when it is built. */
  datatype DogModelComparer = DogModelComparer(attribute: DogSortingAttribute, order: string) {

    /** The field comparison, before the direction is applied: negative
        exactly when the key of `x` is smaller, zero exactly when the keys
        are the same. */
    function Natural(x: Dog, y: Dog): (r: int)
      ensures -1 <= r <= 1
      ensures r < 0 <==> KeyLess(x, y)
      ensures r == 0 <==> SameKey(x, y)
    {
      match attribute
      case Weight => CompareReal(x.weight, y.weight)
      case TailLength => CompareInt(x.tailLength, y.tailLength)
      case _ => CompareOrdinalIgnoreCase(x.name, y.name)
    }

    /** Comparison of two present dogs; a sign in {-1, 0, 1}. */
    function Compare(x: Dog, y: Dog): (r: int)
      ensures -1 <= r <= 1
    {
      if order == "desc" then -Natural(x, y) else Natural(x, y)
    }

    /** `Compare` as the sort calls it, where either argument may be null:
        a null on either side makes the two equal. */
    function CompareNullable(x: Option<Dog>, y: Option<Dog>): (r: int)
      ensures x == None || y == None ==> r == 0
      ensures -1 <= r <= 1
    {
      if x.None? || y.None? then 0 else Compare(x.value, y.value)
    }

    /** The sort key of the attribute is strictly smaller in `x`. */
    ghost predicate KeyLess(x: Dog, y: Dog) {
      match attribute
      case Weight => x.weight < y.weight
      case TailLength => x.tailLength < y.tailLength
      case Name => LexLess(ToUpper(x.name), ToUpper(y.name))
    }

    /** The sort keys of the attribute coincide. */
    ghost predicate SameKey(x: Dog, y: Dog) {
      match attribute
      case Weight => x.weight == y.weight
      case TailLength => x.tailLength == y.tailLength
      case Name => ToUpper(x.name) == ToUpper(y.name)
    }
  }

  /** What a comparison means: `x` sorts strictly first exactly when its key is
      smaller (larger for "desc"), and the two tie exactly when the keys are the
      same; every order string other than "desc" sorts ascending. */
  lemma CompareMeansKeyOrder(c: DogModelComparer, x: Dog, y: Dog)
    ensures c.Compare(x, y) < 0 <==> (if c.order == "desc" then c.KeyLess(y, x) else c.KeyLess(x, y))
    ensures c.Compare(x, y) == 0 <==> c.SameKey(x, y)
  {
    if c.attribute == Name {
      var s, t := ToUpper(x.name), ToUpper(y.name);
      OrdinalIsLexicographic(s, t);
      OrdinalIsLexicographic(t, s);
      OrdinalAntisymmetric(s, t);
    }
  }

  /** Names that differ only in the case of their letters tie. */
  lemma CaseOnlyNamesTie(order: string, x: Dog, y: Dog)
    requires EqualsIgnoreCase(x.name, y.name)
    ensures DogModelComparer(Name, order).Compare(x, y) == 0
  {
    var s, t := ToUpper(x.name), ToUpper(y.name);
    forall i | 0 <= i < |s|
      ensures s[i] == t[i]
    {
      assert ToLowerChar(x.name[i]) == ToLowerChar(y.name[i]);
    }
    OrdinalZeroIffEqual(s, t);
  }

  lemma CompareReflexive(c: DogModelComparer, x: Dog)
    ensures c.Compare(x, x) == 0
  {
    OrdinalZeroIffEqual(ToUpper(x.name), ToUpper(x.name));
  }

  lemma CompareAntisymmetric(c: DogModelComparer, x: Dog, y: Dog)
    ensures c.Compare(x, y) == -c.Compare(y, x)
  {
    OrdinalAntisymmetric(ToUpper(x.name), ToUpper(y.name));
  }

  lemma CompareTransitive(c: DogModelComparer, x: Dog, y: Dog, z: Dog)
    requires c.Compare(x, y) <= 0 && c.Compare(y, z) <= 0
    ensures c.Compare(x, z) <= 0
  {
    var a, b, d := ToUpper(x.name), ToUpper(y.name), ToUpper(z.name);
    if c.attribute == Name {
      if c.order == "desc" {
        OrdinalAntisymmetric(a, b);
        OrdinalAntisymmetric(b, d);
        OrdinalAntisymmetric(a, d);
        OrdinalTransitive(d, b, a);
      } else {
        OrdinalTransitive(a, b, d);
      }
    }
  }

  /** Ties are an equivalence: two dogs tying with a third tie with each other. */
  lemma TieTransitive(c: DogModelComparer, x: Dog, y: Dog, z: Dog)
    requires c.Compare(x, y) == 0 && c.Compare(y, z) == 0
    ensures c.Compare(x, z) == 0
  {
    CompareAntisymmetric(c, x, y);
    CompareAntisymmetric(c, y, z);
    CompareAntisymmetric(c, x, z);
    CompareTransitive(c, x, y, z);
    CompareTransitive(c, z, y, x);
  }

  /** Every attribute and order string give a comparer that obeys the laws
      of a total preorder, so a stable sort by it is well defined. */
  lemma ComparerIsTotalPreorder(c: DogModelComparer)
    ensures Linq.IsTotalPreorder(c.Compare)
  {
    forall x
      ensures c.Compare(x, x) == 0
    {
      CompareReflexive(c, x);
    }
    forall x, y
      ensures c.Compare(x, y) == -c.Compare(y, x)
    {
      CompareAntisymmetric(c, x, y);
    }
    forall x, y, z | c.Compare(x, y) <= 0 && c.Compare(y, z) <= 0
      ensures c.Compare(x, z) <= 0
    {
      CompareTransitive(c, x, y, z);
    }
  }
}
