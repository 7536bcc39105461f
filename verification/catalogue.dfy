/**
 * The asset catalogue screen (`src/app/assets/page.tsx`): the three-way stock
 * label, the availability flag, the case-insensitive search over name,
 * category and location, and the two summary counts.
 */
module Catalogue {
  import opened Wrappers
  import opened Text

  /** A row of the `inventaris_utama` table, as the catalogue declares it. */
  datatype Item = Item(
    id: int,
    nama: string,
    kategori: Option<string>,
    satuan: Option<string>,
    jumlahTersedia: int,
    jumlahTotal: Option<int>,
    lokasi: Option<string>,
    kondisi: Option<string>,
    createdAt: Option<string>,
    updatedAt: Option<string>)

  /** The label shown on each catalogue card. */
  datatype StockLabel = Habis | Terbatas | Tersedia

  /** Rank of a label, from out of stock (0) to plenty (2). */
  function Rank(status: StockLabel): nat
  {
    match status
    case Habis => 0
    case Terbatas => 1
    case Tersedia => 2
  }

  /** `getStatusInfo`: the label chosen from the available count. */
  function StatusFor(available: int): (status: StockLabel)
    ensures status == Habis <==> available <= 0
    ensures status == Terbatas <==> 1 <= available <= 2
    ensures status == Tersedia <==> 3 <= available
  {
    if available <= 0 then Habis
    else if available <= 2 then Terbatas
    else Tersedia
  }

  function Status(item: Item): StockLabel
  {
    StatusFor(item.jumlahTersedia)
  }

  /** More stock never gives a lower label. */
  lemma StatusMonotone(a: int, b: int)
    requires a <= b
    ensures Rank(StatusFor(a)) <= Rank(StatusFor(b))
  {
  }

  /** The card's `isAvailable` flag, also the "TERSEDIA" summary predicate. */
  predicate IsAvailable(item: Item)
  {
    item.jumlahTersedia > 0
  }

  /** The "HABIS" summary predicate. */
  predicate IsSoldOut(item: Item)
  {
    item.jumlahTersedia <= 0
  }

  /** A card is greyed out as unavailable exactly when its label is "Habis". */
  lemma AvailableIffNotHabis(item: Item)
    ensures IsAvailable(item) <==> Status(item) != Habis
    ensures IsSoldOut(item) <==> Status(item) == Habis
  {
  }

  /** `Array.prototype.filter`: the elements satisfying `p`, in their original order. */
  function Keep(s: seq<Item>, p: Item -> bool): (r: seq<Item>)
    ensures |r| <= |s|
    ensures forall x :: x in r <==> x in s && p(x)
  {
    if s == [] then []
    else if p(s[0]) then [s[0]] + Keep(s[1..], p)
    else Keep(s[1..], p)
  }

  /** `r` is obtained from `s` by deleting elements, keeping the order of the rest. */
  predicate IsSubsequence<T(==)>(r: seq<T>, s: seq<T>)
    decreases |s|
  {
    if r == [] then true
    else if s == [] then false
    else if r[0] == s[0] then IsSubsequence(r[1..], s[1..])
    else IsSubsequence(r, s[1..])
  }

  lemma {:induction false} KeepIsSubsequence(s: seq<Item>, p: Item -> bool)
    ensures IsSubsequence(Keep(s, p), s)
  {
    if s != [] {
      KeepIsSubsequence(s[1..], p);
      var rest := Keep(s[1..], p);
      if !p(s[0]) && rest != [] {
        // the rest already matches inside s[1..], and skipping s[0] is allowed
        SubsequenceSkip(rest, s);
      }
    }
  }

  lemma {:induction false} SubsequenceSkip<T>(r: seq<T>, s: seq<T>)
    requires s != [] && IsSubsequence(r, s[1..])
    ensures IsSubsequence(r, s)
    decreases |s|, 0
  {
    if r != [] && r[0] == s[0] {
      // greedy matching takes s[0]; the tail of r still fits in s[1..]
      SubsequenceDropHead(r, s[1..]);
    }
  }

  lemma {:induction false} SubsequenceDropHead<T>(r: seq<T>, s: seq<T>)
    requires r != [] && IsSubsequence(r, s)
    ensures IsSubsequence(r[1..], s)
    decreases |s|, 1
  {
    assert s != [];
    if r[0] == s[0] {
      if r[1..] != [] {
        SubsequenceSkip(r[1..], s);
      }
    } else {
      SubsequenceDropHead(r, s[1..]);
      if r[1..] != [] {
        SubsequenceSkip(r[1..], s);
      }
    }
  }

  lemma {:induction false} KeepAll(s: seq<Item>, p: Item -> bool)
    requires forall i :: 0 <= i < |s| ==> p(s[i])
    ensures Keep(s, p) == s
  {
    if s != [] {
      assert p(s[0]);
      KeepAll(s[1..], p);
    }
  }

  predicate FieldContains(field: Option<string>, q: string)
  {
    field.Some? && Contains(Lower(field.value), q)
  }

  /** The search predicate for an already lower-cased query `q`. */
  predicate Matches(item: Item, q: string)
  {
    Contains(Lower(item.nama), q) || FieldContains(item.kategori, q) || FieldContains(item.lokasi, q)
  }

  function MatcherFor(query: string): Item -> bool
  {
    item => Matches(item, Lower(query))
  }

  /** The search effect: the assets kept for the text typed into the search box. */
  function Search(assets: seq<Item>, query: string): seq<Item>
  {
    Keep(assets, MatcherFor(query))
  }

  /** The search result is an order-preserving selection of exactly the matching assets. */
  lemma SearchSpec(assets: seq<Item>, query: string)
    ensures IsSubsequence(Search(assets, query), assets)
    ensures |Search(assets, query)| <= |assets|
    ensures forall a :: a in Search(assets, query) <==>
      a in assets && (Contains(Lower(a.nama), Lower(query))
                      || FieldContains(a.kategori, Lower(query))
                      || FieldContains(a.lokasi, Lower(query)))
  {
    KeepIsSubsequence(assets, MatcherFor(query));
  }

  /** With an empty search box the whole catalogue is listed. */
  lemma EmptyQueryKeepsAll(assets: seq<Item>)
    ensures Search(assets, "") == assets
  {
    forall i | 0 <= i < |assets|
      ensures MatcherFor("")(assets[i])
    {
      assert IsPrefix(Lower(""), Lower(assets[i].nama));
    }
    KeepAll(assets, MatcherFor(""));
  }

  /** The "TERSEDIA" figure of the summary row. */
  function AvailableCount(assets: seq<Item>): (n: nat)
    ensures n <= |assets|
  {
    |Keep(assets, IsAvailable)|
  }

  /** The "HABIS" figure of the summary row. */
  function SoldOutCount(assets: seq<Item>): (n: nat)
    ensures n <= |assets|
  {
    |Keep(assets, IsSoldOut)|
  }

  /** The two summary figures split the catalogue: every asset is counted exactly once. */
  lemma {:induction false} CountsPartition(assets: seq<Item>)
    ensures AvailableCount(assets) + SoldOutCount(assets) == |assets|
  {
    if assets != [] {
      CountsPartition(assets[1..]);
    }
  }
}
