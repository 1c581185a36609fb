/** The dog service: a record store and a memory cache of listing pages,
    with the listing (read) and creation (write) operations. */
module Service {
  import opened Models
  import opened Text
  import opened Comparer
  import opened Linq
  import opened ModelValidator

  /** Time is in milliseconds; listing pages live five minutes. */
  const CacheTtl: int := 5 * 60 * 1000

  /** The one key a successful create removes from the cache. */
  const InvalidationKey: string := "GetDogsAsync_cache_key"

  /** A cached listing page and the instant from which it is no longer served. */
  datatype CacheEntry = CacheEntry(dogs: seq<Dog>, expiry: int)

  /** The enum's `ToString()`. */
  function AttributeName(a: DogSortingAttribute): string {
    match a
    case Name => "Name"
    case Weight => "Weight"
    case TailLength => "TailLength"
  }

  predicate NoSeparator(s: string) {
    forall i :: 0 <= i < |s| ==> s[i] != '_'
  }

  /** The key a listing is cached under, from the query shape. Every such key
      starts "GetDogsAsync_" and then the attribute's name, so none is the
      key a create removes. */
  function CacheKey(attribute: DogSortingAttribute, order: string, pageNumber: Int32, pageSize: Int32): (key: string)
    ensures |key| > 13 && key[..13] == "GetDogsAsync_" && key[13] in {'N', 'W', 'T'}
    ensures key != InvalidationKey
  {
    var key := "GetDogsAsync_" + AttributeName(attribute) + "_" + order + "_" + IntToString(pageNumber)
      + "_" + IntToString(pageSize);
    assert key[13] == AttributeName(attribute)[0];
    assert InvalidationKey[13] == 'c';
    key
  }

  lemma LastSeparator(w: string, a: nat, b: nat)
    requires a < |w| && b < |w| && w[a] == '_'
    requires forall i :: b < i < |w| ==> w[i] != '_'
    ensures a <= b
  {
  }

  /** A string ending in a separator-free part splits there in one way only. */
  lemma SplitAtLastSeparator(u1: string, v1: string, u2: string, v2: string)
    requires NoSeparator(v1) && NoSeparator(v2)
    requires u1 + "_" + v1 == u2 + "_" + v2
    ensures u1 == u2 && v1 == v2
  {
    var w := u1 + "_" + v1;
    assert w == u2 + "_" + v2;
    assert w[|u1|] == '_' && w[|u2|] == '_';
    assert forall i :: |u1| < i < |w| ==> w[i] == v1[i - |u1| - 1];
    assert forall i :: |u2| < i < |w| ==> w[i] == v2[i - |u2| - 1];
    LastSeparator(w, |u1|, |u2|);
    LastSeparator(w, |u2|, |u1|);
    assert u1 == w[..|u1|] && u2 == w[..|u2|];
    assert v1 == w[|u1| + 1..] && v2 == w[|u2| + 1..];
  }

  /** Distinct query shapes never share a cache entry. */
  lemma CacheKeyInjective(a1: DogSortingAttribute, o1: string, p1: Int32, s1: Int32,
                          a2: DogSortingAttribute, o2: string, p2: Int32, s2: Int32)
    requires CacheKey(a1, o1, p1, s1) == CacheKey(a2, o2, p2, s2)
    ensures a1 == a2 && o1 == o2 && p1 == p2 && s1 == s2
  {
    var h1, h2 := "GetDogsAsync_" + AttributeName(a1) + "_", "GetDogsAsync_" + AttributeName(a2) + "_";
    assert CacheKey(a1, o1, p1, s1) == (h1 + o1 + "_" + IntToString(p1)) + "_" + IntToString(s1);
    assert CacheKey(a2, o2, p2, s2) == (h2 + o2 + "_" + IntToString(p2)) + "_" + IntToString(s2);
    SplitAtLastSeparator(h1 + o1 + "_" + IntToString(p1), IntToString(s1),
                         h2 + o2 + "_" + IntToString(p2), IntToString(s2));
    SplitAtLastSeparator(h1 + o1, IntToString(p1), h2 + o2, IntToString(p2));
    IntToStringInjective(s1, s2);
    IntToStringInjective(p1, p2);
    var w := h1 + o1;
    assert w[13] == AttributeName(a1)[0] && w[13] == AttributeName(a2)[0];
    assert a1 == a2;
    assert o1 == w[|h1|..] && o2 == w[|h2|..];
  }

  function Max(a: int, b: int): int {
    if a < b then b else a
  }

  /** Multiplying both sides of a congruence modulo 2^32 keeps it. */
  lemma CongruenceTimes(a: int, b: int, s: int)
    requires (a - b) % 0x1_0000_0000 == 0
    ensures (a * s - b * s) % 0x1_0000_0000 == 0
  {
    var k := (a - b) / 0x1_0000_0000;
    assert a - b == k * 0x1_0000_0000;
    assert a * s - b * s == (k * s) * 0x1_0000_0000;
  }

  /** Congruence modulo 2^32 is transitive. */
  lemma CongruenceTrans(a: int, b: int, c: int)
    requires (a - b) % 0x1_0000_0000 == 0 && (b - c) % 0x1_0000_0000 == 0
    ensures (a - c) % 0x1_0000_0000 == 0
  {
    var k, l := (a - b) / 0x1_0000_0000, (b - c) / 0x1_0000_0000;
    assert a - c == (k + l) * 0x1_0000_0000;
  }

  /** `(pageNumber - 1) * pageSize` evaluated in unchecked 32-bit arithmetic. */
  function SkipCount(pageNumber: Int32, pageSize: Int32): Int32 {
    Wrap32(Wrap32(pageNumber - 1) * pageSize)
  }

  /** The skip count is the `int` in range congruent to the exact product
      modulo 2^32. */
  lemma SkipCountWraps(pageNumber: Int32, pageSize: Int32)
    ensures (SkipCount(pageNumber, pageSize) - (pageNumber - 1) * pageSize) % 0x1_0000_0000 == 0
  {
    var p := Wrap32(pageNumber - 1);
    CongruenceTimes(p, pageNumber - 1, pageSize);
    var n := Wrap32(p * pageSize);
    CongruenceTrans(n, p * pageSize, (pageNumber - 1) * pageSize);
  }

  /** The page a listing computes from the store on a cache miss: the store
      stably sorted by the comparer, then `Skip(SkipCount).Take(pageSize)`. */
  function ListingPage(store: seq<Dog>, c: DogModelComparer, pageNumber: Int32, pageSize: Int32): seq<Dog> {
    Take(Skip(OrderBy(c.Compare, store), SkipCount(pageNumber, pageSize)), pageSize)
  }

  /** A listing page is a sorted selection of at most `pageSize` stored dogs. */
  lemma ListingPageSpec(store: seq<Dog>, c: DogModelComparer, pageNumber: Int32, pageSize: Int32)
    ensures |ListingPage(store, c, pageNumber, pageSize)| <= Max(pageSize, 0)
    ensures Sorted(c.Compare, ListingPage(store, c, pageNumber, pageSize))
    ensures multiset(ListingPage(store, c, pageNumber, pageSize)) <= multiset(store)
  {
    var sorted := OrderBy(c.Compare, store);
    var n := SkipCount(pageNumber, pageSize);
    var lo := if n <= 0 then 0 else if n >= |sorted| then |sorted| else n;
    var hi := if pageSize <= 0 then lo else if lo + pageSize >= |sorted| then |sorted| else lo + pageSize;
    ComparerIsTotalPreorder(c);
    OrderBySpec(c.Compare, store);
    TakeSkipIsSlice(sorted, n, pageSize, lo, hi);
    SliceOfSorted(c.Compare, sorted, lo, hi);
  }

  /** Without overflow the skip count is the exact product. */
  lemma SkipCountExact(pageNumber: Int32, pageSize: Int32)
    requires Int32Min <= (pageNumber - 1) * pageSize <= Int32Max
    ensures SkipCount(pageNumber, pageSize) == (pageNumber - 1) * pageSize
  {
  }

  /** Without overflow, a page that starts at or past the end is empty. */
  lemma PastEndIsEmpty(store: seq<Dog>, c: DogModelComparer, pageNumber: Int32, pageSize: Int32)
    requires pageNumber >= 1 && pageSize >= 1
    requires (pageNumber - 1) * pageSize <= Int32Max
    requires (pageNumber - 1) * pageSize >= |store|
    ensures ListingPage(store, c, pageNumber, pageSize) == []
  {
    SkipCountExact(pageNumber, pageSize);
  }

  /** Without overflow, a page number of zero or below gives the first page. */
  lemma NonPositivePageIsFirstPage(store: seq<Dog>, c: DogModelComparer, pageNumber: Int32, pageSize: Int32)
    requires pageNumber <= 0 && pageSize >= 1
    requires (pageNumber - 1) * pageSize >= Int32Min
    ensures ListingPage(store, c, pageNumber, pageSize) == ListingPage(store, c, 1, pageSize)
  {
    MulMonotone(pageNumber - 1, -1, pageSize);
    SkipCountExact(pageNumber, pageSize);
    SkipCountExact(1, pageSize);
    assert SkipCount(pageNumber, pageSize) <= 0 && SkipCount(1, pageSize) == 0;
  }

  /** The skip count wraps: page 65537 of size 65536 skips 2^32 = 0 dogs and
      repeats the first page. */
  lemma OverflowingPageRepeatsFirstPage(store: seq<Dog>, c: DogModelComparer)
    ensures ListingPage(store, c, 65537, 65536) == ListingPage(store, c, 1, 65536)
  {
    assert SkipCount(65537, 65536) == 0;
    SkipCountExact(1, 65536);
  }

  /** Number of pages of size `s` that `n` dogs fill. */
  function PageCount(n: nat, s: int): nat
    requires s > 0
  {
    (n + s - 1) / s
  }

  /** Pages 1 to `k` of the listing, concatenated. */
  function ConcatPages(store: seq<Dog>, c: DogModelComparer, pageSize: Int32, k: nat): seq<Dog>
    requires k <= Int32Max
  {
    if k == 0 then [] else ConcatPages(store, c, pageSize, k - 1) + ListingPage(store, c, k, pageSize)
  }

  lemma MulMonotone(a: int, b: int, s: int)
    requires s >= 0 && a <= b
    ensures a * s <= b * s
  {
    assert b * s - a * s == (b - a) * s;
  }

  lemma MulStep(a: int, s: int)
    ensures (a + 1) * s == a * s + s
  {
  }

  lemma PageCountDivision(n: nat, s: int)
    requires s > 0
    ensures n <= PageCount(n, s) * s <= n + s - 1
  {
    var q, r := PageCount(n, s), (n + s - 1) % s;
    assert q * s + r == n + s - 1;
  }

  lemma PageCountAtMost(n: nat, s: int)
    requires s > 0
    ensures PageCount(n, s) <= n
  {
    var q := PageCount(n, s);
    PageCountDivision(n, s);
    MulStep(n, s);
    if n > 0 {
      MulMonotone(1, s, n);
      assert n <= n * s;
    }
    if q >= n + 1 {
      MulMonotone(n + 1, q, s);
    }
  }

  /** Where page `k` starts and ends when there are `n` dogs. */
  lemma PageBounds(n: nat, s: int, k: int)
    requires s > 0 && 1 <= k <= PageCount(n, s)
    ensures 0 <= (k - 1) * s < n
    ensures (k - 1) * s + s == k * s
    ensures k == PageCount(n, s) ==> k * s >= n
    ensures PageCount(n, s) <= n
  {
    var q := PageCount(n, s);
    PageCountDivision(n, s);
    PageCountAtMost(n, s);
    MulMonotone(0, k - 1, s);
    MulMonotone(k - 1, q - 1, s);
    MulStep(q - 1, s);
    MulStep(k - 1, s);
  }

  /** `k * s` by repeated addition, which keeps the page arithmetic linear. */
  function Mul(k: nat, s: nat): nat {
    if k == 0 then 0 else Mul(k - 1, s) + s
  }

  lemma {:induction false} MulIsProduct(k: nat, s: nat)
    ensures Mul(k, s) == k * s
  {
    if k > 0 {
      MulIsProduct(k - 1, s);
      MulStep(k - 1, s);
    }
  }

  lemma {:induction false} MulAtLeast(k: nat, s: nat)
    requires s >= 1
    ensures Mul(k, s) >= k
  {
    if k > 0 {
      MulAtLeast(k - 1, s);
    }
  }

  /** The last page starts inside a listing of `n` dogs and reaches its end. */
  lemma LastPage(n: nat, s: nat)
    requires s > 0
    ensures PageCount(n, s) <= n
    ensures PageCount(n, s) == 0 || Mul(PageCount(n, s) - 1, s) < n
    ensures Mul(PageCount(n, s), s) >= n
  {
    var k := PageCount(n, s);
    PageCountDivision(n, s);
    PageCountAtMost(n, s);
    MulIsProduct(k, s);
    if k > 0 {
      PageBounds(n, s, k);
      MulIsProduct(k - 1, s);
    }
  }

  /** Without overflow, page `k` is the slice of the sorted store that starts
      `(k - 1) * pageSize` dogs in and is at most `pageSize` long. */
  lemma PageIsSlice(store: seq<Dog>, c: DogModelComparer, k: Int32, pageSize: Int32, lo: nat, end: nat)
    requires k >= 1 && pageSize >= 1 && lo == Mul(k - 1, pageSize) <= |store| <= Int32Max
    requires end == if lo + pageSize >= |store| then |store| else lo + pageSize
    ensures ListingPage(store, c, k, pageSize) == OrderBy(c.Compare, store)[lo..end]
  {
    MulIsProduct(k - 1, pageSize);
    SkipCountExact(k, pageSize);
    TakeSkipIsSlice(OrderBy(c.Compare, store), lo, pageSize, lo, end);
  }

  lemma PrefixSplit<T>(xs: seq<T>, lo: nat, end: nat)
    requires lo <= end <= |xs|
    ensures xs[..lo] + xs[lo..end] == xs[..end]
  {
  }

  /** Pages 1 to `k`, when page `k` starts inside the listing, are the sorted
      store up to where page `k` ends. */
  lemma {:induction false} ConcatPagesPrefix(store: seq<Dog>, c: DogModelComparer, pageSize: Int32,
                                              k: nat, end: nat)
    requires pageSize >= 1 && |store| <= Int32Max
    requires k == 0 || Mul(k - 1, pageSize) < |store|
    requires end == if Mul(k, pageSize) >= |store| then |store| else Mul(k, pageSize)
    ensures k <= Int32Max
    ensures ConcatPages(store, c, pageSize, k) == OrderBy(c.Compare, store)[..end]
  {
    var sorted := OrderBy(c.Compare, store);
    if k > 0 {
      var lo := Mul(k - 1, pageSize);
      MulAtLeast(k - 1, pageSize);
      assert lo < |store| && Mul(k, pageSize) == lo + pageSize;
      assert k - 1 == 0 || Mul(k - 2, pageSize) < |store|;
      ConcatPagesPrefix(store, c, pageSize, k - 1, lo);
      PageIsSlice(store, c, k, pageSize, lo, end);
      PrefixSplit(sorted, lo, end);
      assert ConcatPages(store, c, pageSize, k)
          == ConcatPages(store, c, pageSize, k - 1) + ListingPage(store, c, k, pageSize)
          == sorted[..lo] + sorted[lo..end];
    } else {
      assert end == 0;
    }
  }

  /** Pages 1 to ceil(N / pageSize) put back together are exactly the sorted
      store: no dog repeated, none left out. */
  lemma PagesReassembleSortedStore(store: seq<Dog>, c: DogModelComparer, pageSize: Int32)
    requires pageSize >= 1 && |store| <= Int32Max
    ensures PageCount(|store|, pageSize) <= Int32Max
    ensures ConcatPages(store, c, pageSize, PageCount(|store|, pageSize)) == OrderBy(c.Compare, store)
  {
    var n, k := |store|, PageCount(|store|, pageSize);
    LastPage(n, pageSize);
    ConcatPagesPrefix(store, c, pageSize, k, n);
  }

  /** Some stored dog already has this name (case-sensitive equality). */
  predicate NameTaken(store: seq<Dog>, name: string) {
    exists i :: 0 <= i < |store| && store[i].name == name
  }

  predicate NamesDistinct(store: seq<Dog>) {
    forall i, j :: 0 <= i < j < |store| ==> store[i].name != store[j].name
  }

  /** Appending a dog whose name is not taken keeps the names distinct. */
  lemma AppendKeepsNamesDistinct(store: seq<Dog>, d: Dog)
    requires NamesDistinct(store) && !NameTaken(store, d.name)
    ensures NamesDistinct(store + [d])
  {
    var s := store + [d];
    forall i, j | 0 <= i < j < |s|
      ensures s[i].name != s[j].name
    {
      assert s[i] == store[i];
      if j == |store| {
        assert s[j] == d;
      } else {
        assert s[j] == store[j];
      }
    }
  }

  /** The service, with the record store and the cache it shares with other
      requests. Calls are taken one at a time. */
  class DogService {
    var store: seq<Dog>
    var cache: map<string, CacheEntry>

    constructor (store: seq<Dog>, cache: map<string, CacheEntry>)
      ensures this.store == store && this.cache == cache
    {
      this.store := store;
      this.cache := cache;
    }

    /** The health probe answers the version string and touches nothing. */
    method Ping() returns (version: string)
      ensures version == VersionMessage
    {
      version := VersionMessage;
    }

    /** One page of the dogs sorted by `attribute` in `order`. A fresh cache
        entry for the query shape is returned as it is; otherwise the page is
        computed from the whole store and cached for five minutes. The store
        is never changed. */
    method GetDogs(attribute: DogSortingAttribute, order: string, pageNumber: Int32, pageSize: Int32, now: int)
      returns (dogs: seq<Dog>)
      modifies this
      ensures store == old(store)
      ensures var key := CacheKey(attribute, order, pageNumber, pageSize);
        if key in old(cache) && now < old(cache)[key].expiry then
          dogs == old(cache)[key].dogs && cache == old(cache)
        else
          && dogs == ListingPage(store, DogModelComparer(attribute, order), pageNumber, pageSize)
          && cache == old(cache)[key := CacheEntry(dogs, now + CacheTtl)]
    {
      var key := CacheKey(attribute, order, pageNumber, pageSize);
      if key in cache && now < cache[key].expiry {
        dogs := cache[key].dogs;
        return;
      }
      var all := store;
      var comparer := DogModelComparer(attribute, order);
      all := OrderBy(comparer.Compare, all);
      all := Take(Skip(all, SkipCount(pageNumber, pageSize)), pageSize);
      cache := cache[key := CacheEntry(all, now + CacheTtl)];
      dogs := all;
    }

    /** Adds `newDog` unless a rule fails (answer: the first failed rule's
        message) or its name is taken (answer: `DogExists`); either refusal
        leaves store and cache alone. On success the answer is empty, the dog
        is appended and only `InvalidationKey` leaves the cache, so every
        cached listing survives. */
    method CreateDog(newDog: Dog) returns (message: string)
      modifies this
      ensures Errors(newDog) != [] ==>
        message == Errors(newDog)[0] && store == old(store) && cache == old(cache)
      ensures Errors(newDog) == [] && NameTaken(old(store), newDog.name) ==>
        message == DogExists && store == old(store) && cache == old(cache)
      ensures Errors(newDog) == [] && !NameTaken(old(store), newDog.name) ==>
        message == "" && store == old(store) + [newDog] && cache == old(cache) - {InvalidationKey}
      ensures message == "" <==> store == old(store) + [newDog]
      ensures message == DogExists <==> Errors(newDog) == [] && NameTaken(old(store), newDog.name)
      ensures NamesDistinct(old(store)) ==> NamesDistinct(store)
      ensures forall a, o, p, s :: CacheKey(a, o, p, s) in old(cache) ==>
        CacheKey(a, o, p, s) in cache && cache[CacheKey(a, o, p, s)] == old(cache)[CacheKey(a, o, p, s)]
    {
      var errors := Errors(newDog);
      if errors != [] {
        assert errors[0] in errors;
        message := errors[0];
        assert message != "" && message != DogExists;
        return;
      }
      if NameTaken(store, newDog.name) {
        message := DogExists;
        assert |store| != |old(store) + [newDog]|;
        return;
      }
      if NamesDistinct(store) {
        AppendKeepsNamesDistinct(store, newDog);
      }
      store := store + [newDog];
      cache := cache - {InvalidationKey};
      message := "";
    }
  }

  /** A listing cached on an empty cache is served unchanged by a repeat call
      within five minutes, even when a create in between added a dog that
      belongs in it: the create's removal never reaches a listing key. */
  method ListingOutlivesCreate(service: DogService, attribute: DogSortingAttribute, order: string,
                               pageNumber: Int32, pageSize: Int32, newDog: Dog, now: int, later: int)
    returns (first: seq<Dog>, message: string, second: seq<Dog>)
    requires service.cache == map[]
    requires now <= later < now + CacheTtl
    modifies service
    ensures second == first
    ensures message == "" ==> newDog in service.store && newDog !in second
  {
    ghost var key := CacheKey(attribute, order, pageNumber, pageSize);
    first := service.GetDogs(attribute, order, pageNumber, pageSize, now);
    ghost var stored := service.store;
    assert service.cache[key] == CacheEntry(first, now + CacheTtl);
    message := service.CreateDog(newDog);
    assert service.cache[key] == CacheEntry(first, now + CacheTtl);
    if message == "" {
      assert !NameTaken(stored, newDog.name);
      assert newDog !in multiset(first) by {
        ListingPageSpec(stored, DogModelComparer(attribute, order), pageNumber, pageSize);
        assert newDog !in stored;
        assert multiset(first) <= multiset(stored);
      }
    }
    second := service.GetDogs(attribute, order, pageNumber, pageSize, later);
  }
}
