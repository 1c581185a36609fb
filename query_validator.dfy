/** Validation of the listing endpoint's sorting and paging parameters. */
module QueryValidator {
  import opened Models
  import opened Text

  /** The attribute spellings accepted after lower-casing; never modified. */
  const AllowedAttributes: set<string> := {"name", "weight", "tail_length"}

  /** `ValidateSortingParameters`: positive paging, an attribute that spells
      one of the allowed names in any case, and an order that is exactly
      "asc" or "desc". */
  function ValidateSortingParameters(attribute: string, order: string, pageNumber: Int32, pageSize: Int32): (ok: bool)
    ensures ok <==>
      && pageNumber >= 1 && pageSize >= 1
      && (EqualsIgnoreCase(attribute, "name") || EqualsIgnoreCase(attribute, "weight")
          || EqualsIgnoreCase(attribute, "tail_length"))
      && (order == Ascending || order == Descending)
  {
    AllowedSpellings(attribute);
    if pageNumber <= 0 || pageSize <= 0 then false
    else if ToLower(attribute) !in AllowedAttributes then false
    else if order != Ascending && order != Descending then false
    else true
  }

  lemma AllowedAreLowerCase()
    ensures IsLowerCase("name") && IsLowerCase("weight") && IsLowerCase("tail_length")
  {
  }

  lemma AllowedSpellings(attribute: string)
    ensures ToLower(attribute) in AllowedAttributes <==>
      EqualsIgnoreCase(attribute, "name") || EqualsIgnoreCase(attribute, "weight")
      || EqualsIgnoreCase(attribute, "tail_length")
  {
    AllowedAreLowerCase();
    ToLowerMatches(attribute, "name");
    ToLowerMatches(attribute, "weight");
    ToLowerMatches(attribute, "tail_length");
  }

  /** Spellings that differ only in letter case are treated alike. */
  lemma AttributeCaseInsensitive(a: string, b: string, order: string, pageNumber: Int32, pageSize: Int32)
    requires EqualsIgnoreCase(a, b)
    ensures ValidateSortingParameters(a, order, pageNumber, pageSize)
         == ValidateSortingParameters(b, order, pageNumber, pageSize)
  {
    assert ToLower(a) == ToLower(b);
  }

  /** The enum spelling of the tail-length attribute is refused, the
      snake-case one is accepted in any case, and the order is case-sensitive. */
  lemma SpellingExamples()
    ensures !ValidateSortingParameters("TailLength", "asc", 1, 10)
    ensures ValidateSortingParameters("Tail_Length", "desc", 1, 10)
    ensures !ValidateSortingParameters("name", "ASC", 1, 10)
    ensures !ValidateSortingParameters("name", "asc", 0, 10)
  {
    assert ToLower("TailLength") == "taillength";
    assert ToLower("Tail_Length") == "tail_length";
  }
}
