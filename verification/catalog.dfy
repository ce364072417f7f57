/** The catalog queries: active providers of a category, active products
    of a provider, and the sorted distinct categories on offer. */
module Catalog {
  import opened Common
  import opened Text
  import opened DbSchema

  /** `getServicesByCategory`: the providers of `category` that are active. */
  function ServicesByCategory(providers: seq<Provider>, category: Category): (r: seq<Provider>)
    ensures forall p :: p in r <==> p in providers && p.category == category && p.isActive
    ensures forall p :: multiset(r)[p] ==
              if p.category == category && p.isActive then multiset(providers)[p] else 0
  {
    Filter((p: Provider) => p.category == category && p.isActive, providers)
  }

  /** A category without an active provider lists nothing. */
  lemma NoServicesListed(providers: seq<Provider>, category: Category)
    requires forall p :: p in providers && p.category == category ==> !p.isActive
    ensures ServicesByCategory(providers, category) == []
  {
  }

  /** `getServiceProducts`: the active products of one provider, each row
      (and so its price) as stored. */
  function ServiceProducts(products: seq<Product>, providerId: int): (r: seq<Product>)
    ensures forall p :: p in r <==> p in products && p.providerId == providerId && p.isActive
    ensures forall p :: multiset(r)[p] ==
              if p.providerId == providerId && p.isActive then multiset(products)[p] else 0
  {
    Filter((p: Product) => p.providerId == providerId && p.isActive, products)
  }

  /** A provider id that no product names gives an empty list, not an error. */
  lemma NoProductsListed(products: seq<Product>, providerId: int)
    requires forall p :: p in products ==> p.providerId != providerId
    ensures ServiceProducts(products, providerId) == []
  {
  }

  /** Some active provider offers category `c`. */
  predicate Offered(providers: seq<Provider>, c: Category)
  {
    exists p :: p in providers && p.isActive && p.category == c
  }

  /** The `category` column of the active providers, one entry per row. */
  function ActiveCategories(providers: seq<Provider>): (r: seq<Category>)
    ensures forall c :: c in r <==> Offered(providers, c)
  {
    if providers == [] then []
    else
      var p := providers[0];
      var rest := ActiveCategories(providers[1..]);
      assert forall c :: Offered(providers, c) <==>
          (p.isActive && p.category == c) || Offered(providers[1..], c) by {
        assert forall q :: q in providers <==> q == p || q in providers[1..] by {
          assert providers == [p] + providers[1..];
        }
      }
      if p.isActive then [p.category] + rest else rest
  }

  predicate NoDuplicates(s: seq<Category>)
  {
    forall i, j :: 0 <= i < j < |s| ==> s[i] != s[j]
  }

  /** `selectDistinct`: each category once. */
  function Distinct(s: seq<Category>): (r: seq<Category>)
    ensures forall c :: c in r <==> c in s
    ensures NoDuplicates(r)
  {
    if s == [] then []
    else
      var rest := Distinct(s[1..]);
      assert forall c :: c in s <==> c == s[0] || c in s[1..] by {
        assert s == [s[0]] + s[1..];
      }
      if s[0] in rest then rest else [s[0]] + rest
  }

  /** The order `sort()` puts categories in: by label, code unit by code unit. */
  predicate NameLess(a: Category, b: Category)
  {
    LexLess(CategoryName(a), CategoryName(b))
  }

  lemma NameLessTotal(a: Category, b: Category)
    requires a != b
    ensures NameLess(a, b) || NameLess(b, a)
  {
    assert CategoryName(a) != CategoryName(b) by {
      CategoriesEnumerated();
    }
    LexLessTotal(CategoryName(a), CategoryName(b));
  }

  lemma NameLessTransitive(a: Category, b: Category, c: Category)
    requires NameLess(a, b) && NameLess(b, c)
    ensures NameLess(a, c)
  {
    LexLessTransitive(CategoryName(a), CategoryName(b), CategoryName(c));
  }

  predicate StrictlySorted(s: seq<Category>)
  {
    forall i, j :: 0 <= i < j < |s| ==> NameLess(s[i], s[j])
  }

  /** Strict order implies that no category is listed twice. */
  lemma StrictlySortedNoDuplicates(s: seq<Category>)
    requires StrictlySorted(s)
    ensures NoDuplicates(s)
  {
    forall i, j | 0 <= i < j < |s| ensures s[i] != s[j] {
      LexLessIrreflexive(CategoryName(s[i]));
    }
  }

  /** A category that sorts before every entry of a sorted list can go in front. */
  lemma PrependSorted(c: Category, s: seq<Category>)
    requires StrictlySorted(s)
    requires forall j :: 0 <= j < |s| ==> NameLess(c, s[j])
    ensures StrictlySorted([c] + s)
  {
    var r := [c] + s;
    assert forall j :: 0 < j < |r| ==> r[j] == s[j - 1];
    assert forall j :: 0 < j < |r| ==> NameLess(r[0], r[j]);
  }

  /** Every entry of a permutation of a sorted tail plus `c` sorts after
      the head, when `c` does. */
  lemma HeadBeforeAll(c: Category, s: seq<Category>, rest: seq<Category>)
    requires StrictlySorted(s) && s != [] && NameLess(s[0], c)
    requires multiset(rest) == multiset(s[1..]) + multiset{c}
    ensures forall j :: 0 <= j < |rest| ==> NameLess(s[0], rest[j])
  {
    var tail := s[1..];
    forall j | 0 <= j < |rest| ensures NameLess(s[0], rest[j]) {
      var x := rest[j];
      assert x in multiset(rest);
      if x != c {
        assert x in multiset(tail);
        var k :| 0 <= k < |tail| && tail[k] == x;
        assert s[k + 1] == x;
      }
    }
  }

  function InsertByName(c: Category, s: seq<Category>): (r: seq<Category>)
    requires StrictlySorted(s) && c !in s
    ensures StrictlySorted(r)
    ensures multiset(r) == multiset(s) + multiset{c}
  {
    if s == [] then [c]
    else if NameLess(c, s[0]) then
      forall j | 0 < j < |s| ensures NameLess(c, s[j]) {
        NameLessTransitive(c, s[0], s[j]);
      }
      PrependSorted(c, s);
      [c] + s
    else
      NameLessTotal(c, s[0]);
      assert s == [s[0]] + s[1..];
      var rest := InsertByName(c, s[1..]);
      HeadBeforeAll(c, s, rest);
      PrependSorted(s[0], rest);
      [s[0]] + rest
  }

  /** The `sort()` of the distinct categories. */
  function SortByName(s: seq<Category>): (r: seq<Category>)
    requires NoDuplicates(s)
    ensures StrictlySorted(r)
    ensures multiset(r) == multiset(s)
  {
    if s == [] then []
    else
      assert s == [s[0]] + s[1..];
      var rest := SortByName(s[1..]);
      assert s[0] !in multiset(rest);
      InsertByName(s[0], rest)
  }

  /** `getAllServiceCategories`: every category some active provider offers,
      once each, in ascending order of label. */
  function AllServiceCategories(providers: seq<Provider>): (r: seq<Category>)
    ensures forall c :: c in r <==> Offered(providers, c)
    ensures StrictlySorted(r)
    ensures NoDuplicates(r)
  {
    var r := SortByName(Distinct(ActiveCategories(providers)));
    assert forall c :: c in r <==> c in multiset(r);
    StrictlySortedNoDuplicates(r);
    r
  }

  /** Two strictly sorted listings of the same categories start alike. */
  lemma SortedHeadsAgree(a: seq<Category>, b: seq<Category>)
    requires StrictlySorted(a) && StrictlySorted(b)
    requires forall c :: c in a <==> c in b
    requires a != [] && b != []
    ensures a[0] == b[0]
  {
    if a[0] != b[0] {
      assert a[0] in b && b[0] in a;
      var i :| 0 < i < |a| && a[i] == b[0];
      var j :| 0 < j < |b| && b[j] == a[0];
      NameLessTransitive(a[0], b[0], a[0]);
      LexLessIrreflexive(CategoryName(a[0]));
    }
  }

  /** Dropping the head of a strictly sorted listing drops exactly that
      category. */
  lemma SortedTail(a: seq<Category>, c: Category)
    requires StrictlySorted(a) && a != []
    ensures c in a[1..] <==> c in a && c != a[0]
  {
    StrictlySortedNoDuplicates(a);
    assert a == [a[0]] + a[1..];
  }

  /** A strictly sorted listing of a set of categories is unique, so the
      result does not depend on the order the distinct query returns rows in. */
  lemma {:induction false} SortedListingUnique(a: seq<Category>, b: seq<Category>)
    requires StrictlySorted(a) && StrictlySorted(b)
    requires forall c :: c in a <==> c in b
    ensures a == b
  {
    assert a != [] ==> a[0] in b;
    assert b != [] ==> b[0] in a;
    if a != [] && b != [] {
      SortedHeadsAgree(a, b);
      forall c ensures c in a[1..] <==> c in b[1..] {
        SortedTail(a, c);
        SortedTail(b, c);
      }
      assert StrictlySorted(a[1..]) && StrictlySorted(b[1..]);
      SortedListingUnique(a[1..], b[1..]);
      assert a == [a[0]] + a[1..] && b == [b[0]] + b[1..];
    }
  }

  /** An empty providers table offers no category. */
  lemma NoProvidersNoCategories()
    ensures AllServiceCategories([]) == []
  {
  }
}
