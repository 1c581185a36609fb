# Dogshouseservice: a verified model of the dog listing and creation core

Dogshouseservice is a small ASP.NET service. It stores dogs (name, color,
tail length, weight), answers a health probe, lists the dogs one sorted page at
a time, and accepts new dogs. This project models its core in Dafny:

- `DogService` (`service.dfy`) is a class with two fields:
  - the record store, a `seq<Dog>`;
  - the memory cache, a `map<string, CacheEntry>` from key to page and expiry.

  `GetDogs` models the listing. It builds a cache key from the query shape.
  It returns a fresh cached page as it is. Otherwise it sorts the whole store,
  applies LINQ `Skip((pageNumber - 1) * pageSize).Take(pageSize)`, and caches
  the page for five minutes. `CreateDog` models creation. It validates the dog,
  rejects a taken name, appends the dog, and removes one cache key.
- `DogModelComparer` (`comparer.dfy`) is the comparer the sort uses. It
  compares by weight, by tail length, or otherwise by name, ordinally and
  ignoring case. It negates the result when the order is `"desc"`.
- LINQ `OrderBy`, `Skip` and `Take` (`linq.dfy`). `OrderBy` is modelled as a
  stable insertion sort. The model proves that a sorted permutation keeping
  ties in input order is unique, so any stable sort yields the same list.
- `DogQueryValidator.ValidateSortingParameters` (`query_validator.dfy`).
- `DogModelValidator` (`model_validator.dfy`). Its four rules become a
  function from a dog to the ordered list of error messages.
- `text.dfy` holds the .NET string primitives the core relies on:
  - ASCII case mapping;
  - `char.IsWhiteSpace`;
  - `int.ToString`.

  `models.dfy` holds the `Dog` record, the sort attribute, the C# `int`
  range and the response strings.

Time is a parameter `now` in milliseconds. A cache entry is served while
`now < expiry`.

Behaviour of the code that the model makes explicit:

- A successful create removes only the key `"GetDogsAsync_cache_key"`
  (`DogService.cs:80`), right after logging that it is clearing the cache
  (`DogService.cs:79`). The listing never builds that key, so no cached page
  is dropped. A page cached before a create is served unchanged for up to
  five minutes, even when the new dog belongs on it. `ListingOutlivesCreate`
  shows this.
- The listing caches each sorted page under its own query shape: attribute,
  order, page number and page size.
- The listing does not validate its parameters.
  `ValidateSortingParameters` is called nowhere in the service or controller.
  It answers only true or false, with no message.
- Creation rejects a blank name or color as well as a bad tail length or
  weight. It answers with the validator's message, never with
  `"Invalid tail length or weight."`.
- The duplicate-name check is the C# `==` on strings, which is
  case-sensitive. This is how the in-memory store behaves. On SQL Server the
  comparison is made by the database instead (see "## Left out").
- `(pageNumber - 1) * pageSize` is unchecked 32-bit arithmetic. For example,
  page 65537 of size 65536 wraps to a skip of 0 and repeats page 1.

## Model

| member | source | states |
|---|---|---|
| `Service.DogService.constructor` | Dogshouseservice/Services/Implementation/DogService.cs:18-24 | the service starts with the given store and cache |
| `Service.DogService.Ping` | Dogshouseservice/Services/Implementation/DogService.cs:26-30 | the probe answers "Dogshouseservice.Version1.0.1" and changes neither store nor cache |
| `Service.DogService.GetDogs` | Dogshouseservice/Services/Implementation/DogService.cs:32-55 | the store never changes. A fresh entry under the shape's key is returned and the cache stays as it was. Otherwise the result is `ListingPage` of the store, and the cache maps the key to that result with expiry now + 5 min |
| `Service.DogService.CreateDog` | Dogshouseservice/Services/Implementation/DogService.cs:57-83 | if a rule fails, the answer is the first failed rule's message and nothing changes. If the name is taken (case-sensitive), the answer is the duplicate message and nothing changes. Otherwise the answer is "", the store is old + [dog], and only the invalidation key leaves the cache. "" is answered exactly on success and the duplicate message exactly on a duplicate. Pairwise distinct names stay distinct. Every cached listing entry survives |
| `Service.AppendKeepsNamesDistinct` | Dogshouseservice/Services/Implementation/DogService.cs:69-75 | appending a dog whose name no stored dog has keeps the stored names pairwise distinct |
| `Service.ListingOutlivesCreate` | Dogshouseservice/Services/Implementation/DogService.cs:37-80 | starting from an empty cache: list, create, then list again with the same shape within 5 min. The second page equals the first. After a successful create the new dog is in the store but not on that page |
| `Service.CacheKey` | Dogshouseservice/Services/Implementation/DogService.cs:34 | every listing key starts "GetDogsAsync_" followed by the first letter of the attribute's name, so it is never the key a create removes |
| `Service.CacheKeyInjective` | Dogshouseservice/Services/Implementation/DogService.cs:34 | two query shapes with the same cache key are the same shape (attribute, order, page number, page size) |
| `Service.SkipCountWraps` | Dogshouseservice/Services/Implementation/DogService.cs:49 | the skip count is the C# `int` congruent to (pageNumber - 1) * pageSize modulo 2^32 |
| `Service.SkipCountExact` | Dogshouseservice/Services/Implementation/DogService.cs:49 | when (pageNumber - 1) * pageSize fits in an `int`, the wrapped skip count is that product |
| `Service.ListingPageSpec` | Dogshouseservice/Services/Implementation/DogService.cs:44-49 | the page computed on a miss has at most max(pageSize, 0) dogs. It is sorted by the comparer and holds only stored dogs, with multiplicity |
| `Service.PastEndIsEmpty` | Dogshouseservice/Services/Implementation/DogService.cs:49 | without overflow, a page starting at or past the end of the store is empty |
| `Service.NonPositivePageIsFirstPage` | Dogshouseservice/Services/Implementation/DogService.cs:49 | without overflow, a page number ≤ 0 with a positive page size gives page 1 |
| `Service.OverflowingPageRepeatsFirstPage` | Dogshouseservice/Services/Implementation/DogService.cs:49 | page 65537 of size 65536 equals page 1, because the skip count wraps to 0 |
| `Service.PageIsSlice` | Dogshouseservice/Services/Implementation/DogService.cs:47-49 | without overflow, page k is the slice of the sorted store from (k - 1) * pageSize, at most pageSize long |
| `Service.ConcatPagesPrefix` | Dogshouseservice/Services/Implementation/DogService.cs:47-49 | pages 1..k, when page k starts inside the store, concatenate to the sorted store up to where page k ends |
| `Service.PagesReassembleSortedStore` | Dogshouseservice/Services/Implementation/DogService.cs:47-49 | for a store of at most int.MaxValue dogs, pages 1..ceil(N/s) concatenate to exactly the sorted store, with no repeats or omissions |
| `Service.PageBounds` | Dogshouseservice/Services/Implementation/DogService.cs:49 | page k ≤ ceil(n/s) starts inside the store, the last page reaches its end, and ceil(n/s) ≤ n |
| `Service.LastPage` | Dogshouseservice/Services/Implementation/DogService.cs:49 | the last of ceil(n/s) pages starts inside a store of n dogs and reaches its end |
| `Linq.OrderBy` | Dogshouseservice/Services/Implementation/DogService.cs:47 | `OrderBy` rearranges the store: the same dogs with the same multiplicities, and the same length |
| `Linq.Skip` | Dogshouseservice/Services/Implementation/DogService.cs:49 | `Skip(n)` is the suffix after the first n elements: all of them for n ≤ 0, none for n ≥ length |
| `Linq.Take` | Dogshouseservice/Services/Implementation/DogService.cs:49 | `Take(n)` is the prefix of the first n elements: none for n ≤ 0, all of them for n ≥ length |
| `Linq.TakeSkipIsSlice` | Dogshouseservice/Services/Implementation/DogService.cs:49 | `Skip(n).Take(m)` is the slice from n clamped to [0, len], at most max(m, 0) long. A count ≤ 0 skips nothing and takes nothing |
| `Linq.OrderBySpec` | Dogshouseservice/Services/Implementation/DogService.cs:46-47 | `OrderBy` with a comparer that is a total preorder returns a sorted permutation of the store. Each group of tying dogs keeps its input order (stability) |
| `Linq.StableSortIsUnique` | Dogshouseservice/Services/Implementation/DogService.cs:47 | any sorted permutation that keeps ties in input order equals `OrderBy`, so the stable sort's result is fully determined |
| `Linq.InsertSorted` | Dogshouseservice/Services/Implementation/DogService.cs:47 | inserting a dog into a sorted list keeps it sorted |
| `Linq.InsertTies` | Dogshouseservice/Services/Implementation/DogService.cs:47 | inserting a dog puts it in front of the dogs it ties with |
| `Linq.SortedStableEqual` | Dogshouseservice/Services/Implementation/DogService.cs:47 | two sorted, stable arrangements of the same dogs are equal |
| `Comparer.DogModelComparer.Natural` | Dogshouseservice/Helpers/DogModelComparer.cs:20-25 | the field comparison chosen by the attribute is negative exactly when the key of x is smaller, and zero exactly when the keys are the same |
| `Comparer.DogModelComparer.Compare` | Dogshouseservice/Helpers/DogModelComparer.cs:16-28 | the comparison of two dogs is a sign in {-1, 0, 1} |
| `Comparer.DogModelComparer.CompareNullable` | Dogshouseservice/Helpers/DogModelComparer.cs:18 | a null on either side compares equal (0) |
| `Comparer.CompareMeansKeyOrder` | Dogshouseservice/Helpers/DogModelComparer.cs:20-27 | for Weight, TailLength and otherwise Name, the result is negative iff the field is smaller. The name is taken as the lexicographically smaller upper-cased name. Under "desc" the result is negative iff the field is larger. Zero means equal fields. Every order string but "desc" sorts ascending |
| `Comparer.CaseOnlyNamesTie` | Dogshouseservice/Helpers/DogModelComparer.cs:24 | names that differ only in letter case compare equal |
| `Comparer.CompareOrdinal` | Dogshouseservice/Helpers/DogModelComparer.cs:24 | the ordinal comparison of two strings is a sign in {-1, 0, 1} |
| `Comparer.OrdinalIsLexicographic` | Dogshouseservice/Helpers/DogModelComparer.cs:24 | the ordinal comparison is negative iff the first string is lexicographically smaller, and zero iff the strings are equal |
| `Comparer.CompareOrdinalIgnoreCase` | Dogshouseservice/Helpers/DogModelComparer.cs:24 | the case-insensitive comparison is negative iff the upper-cased first name is lexicographically smaller, and zero iff the upper-cased names are equal |
| `Comparer.CompareReflexive` | Dogshouseservice/Helpers/DogModelComparer.cs:20-27 | Compare(x, x) = 0 |
| `Comparer.CompareAntisymmetric` | Dogshouseservice/Helpers/DogModelComparer.cs:20-27 | Compare(x, y) = -Compare(y, x) |
| `Comparer.CompareTransitive` | Dogshouseservice/Helpers/DogModelComparer.cs:20-27 | x ≤ y and y ≤ z imply x ≤ z, for every attribute and order |
| `Comparer.TieTransitive` | Dogshouseservice/Helpers/DogModelComparer.cs:20-27 | tying is transitive |
| `Comparer.ComparerIsTotalPreorder` | Dogshouseservice/Helpers/DogModelComparer.cs:20-27 | every comparer is reflexive, antisymmetric and transitive, the laws `OrderBy` needs to sort by it |
| `QueryValidator.ValidateSortingParameters` | Dogshouseservice/Helpers/DogQueryValidator.cs:9-21 | true iff page number ≥ 1 and page size ≥ 1, the attribute spells "name", "weight" or "tail_length" in any letter case, and the order is exactly "asc" or "desc" |
| `QueryValidator.AllowedSpellings` | Dogshouseservice/Helpers/DogQueryValidator.cs:7-14 | the lower-cased attribute is in the allowed set iff it matches one of the three names ignoring case |
| `QueryValidator.AttributeCaseInsensitive` | Dogshouseservice/Helpers/DogQueryValidator.cs:14-15 | attribute spellings that differ only in case get the same verdict |
| `QueryValidator.SpellingExamples` | Dogshouseservice/Helpers/DogQueryValidator.cs:7-18 | "TailLength" is rejected and "Tail_Length" accepted. "ASC" is rejected, and so is page 0 |
| `ModelValidator.FailedRules` | Dogshouseservice/Helpers/DogModelValidator.cs:8-18 | a rule is listed exactly when it fails, and the failed rules come in declaration order, each once |
| `ModelValidator.Messages` | Dogshouseservice/Helpers/DogModelValidator.cs:9-18 | one message per rule, each rule's own; a rule's message appears exactly when the rule does; only rule messages appear; rules in declaration order give messages in rule order |
| `ModelValidator.Errors` | Dogshouseservice/Helpers/DogModelValidator.cs:6-19 | no errors iff the name and color are not blank, tail length ≥ 0 and weight > 0 |
| `ModelValidator.ErrorsSpec` | Dogshouseservice/Helpers/DogModelValidator.cs:6-19 | each rule's message appears exactly when that rule fails. Only the four rule messages appear, in rule order (name, color, tail length, weight), none twice. No message is "", the duplicate message or "Invalid tail length or weight." |
| `ModelValidator.FirstErrorFollowsRuleOrder` | Dogshouseservice/Services/Implementation/DogService.cs:61-66 | the message the service reports is the earliest failed rule's, in the order name, color, tail length, weight |
| `ModelValidator.ZeroTailLengthAccepted` | Dogshouseservice/Helpers/DogModelValidator.cs:14-18 | tail length 0 with weight 0.1 passes |
| `ModelValidator.NegativeTailLengthRejected` | Dogshouseservice/Helpers/DogModelValidator.cs:14-15 | tail length -1 fails with the tail-length message only |
| `ModelValidator.ZeroWeightRejected` | Dogshouseservice/Helpers/DogModelValidator.cs:17-18 | weight 0 fails with the weight message only |
| `ModelValidator.NumericMessagesInRuleOrder` | Dogshouseservice/Helpers/DogModelValidator.cs:14-18 | tail length -1 and weight 0 give both messages, tail length first |
| `ModelValidator.BlankFieldsExample` | Dogshouseservice/Helpers/DogModelValidator.cs:8-12 | a name of spaces only is blank and reported before the other rules |
| `ModelValidator.ExampleDogIsValid` | Dogshouseservice/Helpers/DogModelValidator.cs:8-18 | a dog with a visible name and color, positive tail length and weight passes |
| `Text.IsBlank` | Dogshouseservice/Helpers/DogModelValidator.cs:9 | `NotEmpty` on a string fails exactly when every character is white space, the empty string included |
| `Text.WhiteSpaceExamples` | Dogshouseservice/Helpers/DogModelValidator.cs:9-12 | space, tab, line feed, carriage return, no-break space, em space and ideographic space are white space; zero-width space, byte-order mark, letters and digits are not |
| `Text.ToUpper` | Dogshouseservice/Helpers/DogModelComparer.cs:24 | upper-casing keeps the word up to case and leaves no lower-case ASCII letter |
| `Text.ToLower` | Dogshouseservice/Helpers/DogQueryValidator.cs:14 | lower-casing keeps the word up to case and leaves no upper-case ASCII letter |
| `Text.ToLowerMatches` | Dogshouseservice/Helpers/DogQueryValidator.cs:14 | lower-casing an attribute gives an allowed lower-case name exactly when it spells that name ignoring case |
| `Text.IntToString` | Dogshouseservice/Services/Implementation/DogService.cs:34 | the printed number starts with "-" exactly when it is negative, is otherwise decimal digits, and never holds "_" |
| `Text.IntToStringInjective` | Dogshouseservice/Services/Implementation/DogService.cs:34 | distinct page numbers and sizes print differently in the key |
| `Models.Wrap32` | Dogshouseservice/Services/Implementation/DogService.cs:49 | unchecked `int` arithmetic gives the `int` congruent to the exact value modulo 2^32, and leaves an in-range value unchanged |

## Left out

- The HTTP layer is not modelled. That is the controller (`Dogshouseservice/Controllers/DogController.cs`), its status codes and its parameter binding. Note that it maps only the duplicate message and "Invalid tail length or weight." to errors. A validator message therefore reaches the client as a successful creation.
- Program.cs is not part of this model: dependency injection, SQL Server and Swagger. The model assumes `DogModelValidator` is the validator injected into the service.
- The rate-limiting middleware is not part of this model. It exists for concurrency (a semaphore with a timed wait).
- The database is an abstract `seq<Dog>`. Store failures, `SaveChangesAsync` errors and async suspension are not modelled. `ToListAsync()` (`DogService.cs:44`) has no ORDER BY, so the row order the database returns is not fixed. Dogs that tie under the comparer keep that order after the stable sort. The model takes it to be insertion order.
- The duplicate-name check at `DogService.cs:69` is case-sensitive in the model, as it is on the in-memory store. On SQL Server the query runs as SQL `=` under the column's collation. The default collation ignores letter case and trailing spaces, so "Rex" and "rex " would count as duplicates there. Database collations are not modelled.
- Calls are sequential. The race between the duplicate check and the append, which the code does not guard, is not modelled.
- MemoryCache internals are not modelled: eviction under memory pressure, compaction, sliding expiration and expiry scans. An expired entry read by `TryGetValue` is overwritten by the following `Set`, which the model does directly.
- The list returned on a cache hit is the cached object itself. Aliasing between caller and cache is not modelled; pages are values.
- Weight is an exact real. NaN and floating-point rounding are left out, because the model type's declaration is not available.
- Names, colors and the order string are never null in the model.
- Case mapping covers ASCII letters only. Culture-sensitive `ToLower` and Unicode case folding in `OrdinalIgnoreCase` are left out. `int.ToString` uses the invariant culture's minus sign.
- Comparer.CompareOrdinal: returns only the sign of .NET's ordinal comparison. .NET may return any integer of that sign, and only the sign affects the sort.
- Comparer.CompareOrdinal: compares Unicode code points, where .NET compares UTF-16 code units. The two orders differ only when a character above U+FFFF (a surrogate pair) meets one in U+E000 to U+FFFF at the same place. For example, the model puts "\U{10000}" after "\U{FFFD}", while .NET puts it first (0xD800 < 0xFFFD). Strings are modelled as sequences of code points, not of UTF-16 units.
- `DogSortingAttribute` has its three named values only. An undefined numeric enum value would also sort by name, but would print differently in the cache key.
- Logging, the FluentValidation async pipeline and the test scaffolding are left out.
- `SortingConstants` is not part of this model. Its ascending and descending values are taken to be "asc" and "desc", as the controller's default and the comparer use.
