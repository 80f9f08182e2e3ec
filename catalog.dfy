/**
 * The image catalog of the gallery: flattening the category groups into one
 * addressable sequence, filtering it by category, and listing the categories.
 */
module GalleryCatalog {

  /** One entry of the gallery data: a category label, a display title and its image locators. */
  datatype CategoryGroup = CategoryGroup(category: string, title: string, images: seq<string>)

  /** A flattened image entry; (categoryIndex, imageIndex) is its identity. */
  datatype Entry = Entry(
    src: string,
    alt: string,
    category: string,
    title: string,
    categoryIndex: nat,
    imageIndex: nat)

  /** The synthetic category that selects every image. */
  const AllCategory: string := "all"

  // ---------------------------------------------------------------------------
  // Decimal rendering of the 1-based image number used in the alt text.

  function DigitChar(d: nat): (c: char)
    requires d < 10
    ensures '0' <= c <= '9' && (c as int) - ('0' as int) == d
  {
    (('0' as int) + d) as char
  }

  /** `String(n)` for a non-negative integer: its decimal digits, most significant first. */
  function NatToString(n: nat): (s: string)
    decreases n
  {
    if n < 10 then [DigitChar(n)] else NatToString(n / 10) + [DigitChar(n % 10)]
  }

  /** The value of a string of decimal digits (the inverse reading of NatToString). */
  function DigitsValue(s: string): int
    decreases |s|
  {
    if s == [] then 0 else DigitsValue(s[..|s| - 1]) * 10 + ((s[|s| - 1] as int) - ('0' as int))
  }

  /**
   * NatToString yields a non-empty run of digits that reads back as its input and,
   * as JavaScript's rendering of a number does, starts with '0' only for zero itself.
   */
  lemma {:induction false} NatToStringRoundTrip(n: nat)
    ensures |NatToString(n)| > 0
    ensures forall k :: 0 <= k < |NatToString(n)| ==> '0' <= NatToString(n)[k] <= '9'
    ensures DigitsValue(NatToString(n)) == n
    ensures NatToString(n)[0] == '0' <==> n == 0
    decreases n
  {
    if n >= 10 {
      NatToStringRoundTrip(n / 10);
      var s := NatToString(n / 10) + [DigitChar(n % 10)];
      assert s[..|s| - 1] == NatToString(n / 10);
      assert s[0] == NatToString(n / 10)[0];
    }
  }

  // ---------------------------------------------------------------------------
  // Flattening (Gallery.jsx flattenedImages).

  /** The entry pushed for image `imageIndex` of group `g`, which sits at `categoryIndex`. */
  function MakeEntry(g: CategoryGroup, categoryIndex: nat, imageIndex: nat): Entry
    requires imageIndex < |g.images|
  {
    Entry(g.images[imageIndex], g.title + " - Image " + NatToString(imageIndex + 1),
          g.category, g.title, categoryIndex, imageIndex)
  }

  /** The entries contributed by one group, in image order. */
  function GroupEntries(g: CategoryGroup, categoryIndex: nat): seq<Entry>
  {
    seq(|g.images|, i requires 0 <= i < |g.images| => MakeEntry(g, categoryIndex, i))
  }

  /** Reference definition of the flattened catalog: the groups' entries, group after group. */
  function Flattened(groups: seq<CategoryGroup>): seq<Entry>
    decreases |groups|
  {
    if groups == [] then []
    else Flattened(groups[..|groups| - 1]) + GroupEntries(groups[|groups| - 1], |groups| - 1)
  }

  /** The number of images of all groups together. */
  function TotalImages(groups: seq<CategoryGroup>): nat
    decreases |groups|
  {
    if groups == [] then 0 else TotalImages(groups[..|groups| - 1]) + |groups[|groups| - 1].images|
  }

  /** Position of group `c`'s first entry in the flattened catalog. */
  function GroupOffset(groups: seq<CategoryGroup>, c: nat): nat
    requires c <= |groups|
  {
    TotalImages(groups[..c])
  }

  /** The flattening loop: for every group, push one entry per image. */
  method Flatten(groups: seq<CategoryGroup>) returns (images: seq<Entry>)
    ensures images == Flattened(groups)
  {
    images := [];
    var c := 0;
    while c < |groups|
      invariant 0 <= c <= |groups|
      invariant images == Flattened(groups[..c])
    {
      var g := groups[c];
      var i := 0;
      while i < |g.images|
        invariant 0 <= i <= |g.images|
        invariant images == Flattened(groups[..c]) + GroupEntries(g, c)[..i]
      {
        images := images + [MakeEntry(g, c, i)];
        i := i + 1;
      }
      assert groups[..c + 1][..c] == groups[..c];
      c := c + 1;
    }
    assert groups[..c] == groups;
  }

  /** The flattened catalog has as many entries as there are images in all groups. */
  lemma {:induction false} FlattenedLength(groups: seq<CategoryGroup>)
    ensures |Flattened(groups)| == TotalImages(groups)
    decreases |groups|
  {
    if groups != [] {
      FlattenedLength(groups[..|groups| - 1]);
    }
  }

  /** The offsets of the groups grow with the group index. */
  lemma {:induction false} GroupOffsetMonotone(groups: seq<CategoryGroup>, c: nat, d: nat)
    requires c <= d <= |groups|
    ensures GroupOffset(groups, c) + (if c < d then |groups[c].images| else 0) <= GroupOffset(groups, d)
    decreases d
  {
    if c < d {
      var p := groups[..d];
      assert p[..|p| - 1] == groups[..d - 1];
      if c == d - 1 {
        assert TotalImages(groups[..d]) == TotalImages(groups[..c]) + |groups[c].images|;
      } else {
        GroupOffsetMonotone(groups, c, d - 1);
        assert TotalImages(groups[..d]) == TotalImages(groups[..d - 1]) + |groups[d - 1].images|;
      }
    }
  }

  /** Image `i` of group `c` sits at GroupOffset(c) + i and is the entry built from that group and position. */
  lemma {:induction false} FlattenedAt(groups: seq<CategoryGroup>, c: nat, i: nat)
    requires c < |groups| && i < |groups[c].images|
    ensures GroupOffset(groups, c) + i < |Flattened(groups)|
    ensures Flattened(groups)[GroupOffset(groups, c) + i] == MakeEntry(groups[c], c, i)
    decreases |groups|
  {
    var init := groups[..|groups| - 1];
    FlattenedLength(init);
    assert groups[..c] == init[..c] by { assert c <= |init| || c == |groups| - 1; }
    if c == |groups| - 1 {
      assert init == groups[..c];
    } else {
      FlattenedAt(init, c, i);
    }
  }

  /**
   * The entry for image `i` of group `c`: that image's locator, the alt text
   * "<title> - Image <i + 1>", the group's category and title, and the identity (c, i).
   */
  lemma FlattenedEntryFields(groups: seq<CategoryGroup>, c: nat, i: nat)
    requires c < |groups| && i < |groups[c].images|
    ensures GroupOffset(groups, c) + i < |Flattened(groups)|
    ensures var e := Flattened(groups)[GroupOffset(groups, c) + i];
      && e.src == groups[c].images[i]
      && e.alt == groups[c].title + " - Image " + NatToString(i + 1)
      && e.category == groups[c].category && e.title == groups[c].title
      && e.categoryIndex == c && e.imageIndex == i
  {
    FlattenedAt(groups, c, i);
  }

  /**
   * Every entry of the flattened catalog carries its origin: its categoryIndex names
   * a group, its imageIndex a position in that group, it is the entry built from
   * them, and it sits at that group's offset plus that position.
   */
  lemma {:induction false} FlattenedEntryOrigin(groups: seq<CategoryGroup>, k: nat)
    requires k < |Flattened(groups)|
    ensures Flattened(groups)[k].categoryIndex < |groups|
    ensures Flattened(groups)[k].imageIndex < |groups[Flattened(groups)[k].categoryIndex].images|
    ensures Flattened(groups)[k] ==
      MakeEntry(groups[Flattened(groups)[k].categoryIndex], Flattened(groups)[k].categoryIndex, Flattened(groups)[k].imageIndex)
    ensures k == GroupOffset(groups, Flattened(groups)[k].categoryIndex) + Flattened(groups)[k].imageIndex
    decreases |groups|
  {
    var init := groups[..|groups| - 1];
    FlattenedLength(init);
    if k < |Flattened(init)| {
      FlattenedEntryOrigin(init, k);
      var c := Flattened(init)[k].categoryIndex;
      assert init[..c] == groups[..c];
    } else {
      assert init == groups[..|groups| - 1];
    }
  }

  /** Flattening lists entries in category order, then in image order. */
  lemma FlattenedOrder(groups: seq<CategoryGroup>, j: nat, k: nat)
    requires j < k < |Flattened(groups)|
    ensures Flattened(groups)[j].categoryIndex < Flattened(groups)[k].categoryIndex
         || (Flattened(groups)[j].categoryIndex == Flattened(groups)[k].categoryIndex
             && Flattened(groups)[j].imageIndex < Flattened(groups)[k].imageIndex)
  {
    FlattenedEntryOrigin(groups, j);
    FlattenedEntryOrigin(groups, k);
    var cj, ck := Flattened(groups)[j].categoryIndex, Flattened(groups)[k].categoryIndex;
    if ck < cj {
      GroupOffsetMonotone(groups, ck, cj);
    } else if cj < ck {
    }
  }

  // ---------------------------------------------------------------------------
  // Filtering (Gallery.jsx filteredImages).

  /** `Array.prototype.filter` with the predicate `img.category === category`. */
  function FilterByCategory(images: seq<Entry>, category: string): seq<Entry>
    decreases |images|
  {
    if images == [] then []
    else if images[|images| - 1].category == category
      then FilterByCategory(images[..|images| - 1], category) + [images[|images| - 1]]
      else FilterByCategory(images[..|images| - 1], category)
  }

  /** The images shown for the selected category. */
  function FilterImages(images: seq<Entry>, selected: string): seq<Entry>
  {
    if selected == AllCategory then images else FilterByCategory(images, selected)
  }

  /** The positions, in increasing order, of the images of a category. */
  ghost function MatchingIndices(images: seq<Entry>, category: string): seq<nat>
    decreases |images|
  {
    if images == [] then []
    else if images[|images| - 1].category == category
      then MatchingIndices(images[..|images| - 1], category) + [|images| - 1]
      else MatchingIndices(images[..|images| - 1], category)
  }

  /** Selecting 'all' shows the flattened catalog unchanged. */
  lemma FilterAllIsIdentity(images: seq<Entry>)
    ensures FilterImages(images, AllCategory) == images
  {
  }

  /**
   * Filtering by a category keeps exactly the images of that category, in their
   * original order: the result is the catalog read at the strictly increasing
   * positions of the matching images, and no other position matches.
   */
  lemma {:induction false} FilterIsOrderedSelection(images: seq<Entry>, category: string)
    ensures |MatchingIndices(images, category)| == |FilterByCategory(images, category)|
    ensures forall k :: 0 <= k < |MatchingIndices(images, category)| ==>
              MatchingIndices(images, category)[k] < |images|
              && FilterByCategory(images, category)[k] == images[MatchingIndices(images, category)[k]]
    ensures forall j, k :: 0 <= j < k < |MatchingIndices(images, category)| ==>
              MatchingIndices(images, category)[j] < MatchingIndices(images, category)[k]
    ensures forall p :: 0 <= p < |images| && images[p].category == category ==> p in MatchingIndices(images, category)
    decreases |images|
  {
    if images != [] {
      FilterIsOrderedSelection(images[..|images| - 1], category);
    }
  }

  /** Every image kept by a category filter has exactly that category. */
  lemma {:induction false} FilterOnlyCategory(images: seq<Entry>, category: string)
    ensures forall e :: e in FilterByCategory(images, category) ==> e.category == category
    ensures |FilterByCategory(images, category)| <= |images|
    decreases |images|
  {
    if images != [] {
      FilterOnlyCategory(images[..|images| - 1], category);
    }
  }

  /** For any selection, the shown images are catalog images of the selected category (or any, for 'all'). */
  lemma FilterImagesSound(images: seq<Entry>, selected: string)
    ensures |FilterImages(images, selected)| <= |images|
    ensures forall e :: e in FilterImages(images, selected) ==> e in images
    ensures forall e :: e in FilterImages(images, selected) ==> selected == AllCategory || e.category == selected
  {
    if selected != AllCategory {
      FilterOnlyCategory(images, selected);
      FilterIsOrderedSelection(images, selected);
      forall e | e in FilterImages(images, selected) ensures e in images {
        var k :| 0 <= k < |FilterByCategory(images, selected)| && FilterByCategory(images, selected)[k] == e;
      }
    }
  }

  /** Filtering distributes over concatenation. */
  lemma {:induction false} FilterAppend(a: seq<Entry>, b: seq<Entry>, category: string)
    ensures FilterByCategory(a + b, category) == FilterByCategory(a, category) + FilterByCategory(b, category)
    decreases |b|
  {
    if b != [] {
      var b' := b[..|b| - 1];
      assert (a + b)[..|a + b| - 1] == a + b';
      FilterAppend(a, b', category);
    } else {
      assert a + b == a;
    }
  }

  /** A group's entries all carry its category, so the filter keeps all or none of them. */
  lemma {:induction false} FilterGroupEntries(g: CategoryGroup, c: nat, category: string, n: nat)
    requires n <= |g.images|
    ensures FilterByCategory(GroupEntries(g, c)[..n], category) ==
              if g.category == category then GroupEntries(g, c)[..n] else []
    decreases n
  {
    if n > 0 {
      var s := GroupEntries(g, c)[..n];
      assert s[..n - 1] == GroupEntries(g, c)[..n - 1];
      FilterGroupEntries(g, c, category, n - 1);
    }
  }

  /** The category labels of the groups, in group order. */
  function Labels(groups: seq<CategoryGroup>): seq<string>
  {
    seq(|groups|, k requires 0 <= k < |groups| => groups[k].category)
  }

  /** No two groups share a category label. */
  ghost predicate DistinctLabels(groups: seq<CategoryGroup>)
  {
    forall j, k :: 0 <= j < k < |groups| ==> groups[j].category != groups[k].category
  }

  /**
   * When the category labels are distinct, selecting group c's category shows exactly
   * that group's entries (a group with no images gives the empty result).
   */
  lemma {:induction false} FilterSelectsGroup(groups: seq<CategoryGroup>, c: nat)
    requires DistinctLabels(groups) && c < |groups| && groups[c].category != AllCategory
    ensures FilterImages(Flattened(groups), groups[c].category) == GroupEntries(groups[c], c)
    ensures |FilterImages(Flattened(groups), groups[c].category)| == |groups[c].images|
    decreases |groups|
  {
    var cat := groups[c].category;
    var last := |groups| - 1;
    var init := groups[..last];
    var tail := GroupEntries(groups[last], last);
    assert Flattened(groups) == Flattened(init) + tail;
    FilterAppend(Flattened(init), tail, cat);
    FilterGroupEntries(groups[last], last, cat, |tail|);
    assert tail[..|tail|] == tail;
    if c == last {
      assert forall k :: 0 <= k < |init| ==> init[k].category != cat;
      FilterNoneOfOthers(init, cat);
    } else {
      assert groups[last].category != cat;
      assert DistinctLabels(init) && init[c] == groups[c];
      FilterSelectsGroup(init, c);
    }
  }

  /** Filtering for a label no group carries keeps nothing. */
  lemma {:induction false} FilterNoneOfOthers(groups: seq<CategoryGroup>, category: string)
    requires forall k :: 0 <= k < |groups| ==> groups[k].category != category
    ensures FilterByCategory(Flattened(groups), category) == []
    decreases |groups|
  {
    if groups != [] {
      var last := |groups| - 1;
      var tail := GroupEntries(groups[last], last);
      FilterAppend(Flattened(groups[..last]), tail, category);
      FilterGroupEntries(groups[last], last, category, |tail|);
      assert tail[..|tail|] == tail;
      FilterNoneOfOthers(groups[..last], category);
    }
  }

  // ---------------------------------------------------------------------------
  // The category list (Gallery.jsx categories).

  /** The elements of `xs` without repetitions, in first-seen order (an insertion-ordered Set). */
  function Distinct(xs: seq<string>): seq<string>
    decreases |xs|
  {
    if xs == [] then []
    else
      var d := Distinct(xs[..|xs| - 1]);
      if xs[|xs| - 1] in d then d else d + [xs[|xs| - 1]]
  }

  /** The index of the first occurrence of `x` in `xs`. */
  function FirstIndex(xs: seq<string>, x: string): (i: nat)
    requires x in xs
    ensures i < |xs| && xs[i] == x && forall j :: 0 <= j < i ==> xs[j] != x
  {
    if xs[0] == x then 0 else 1 + FirstIndex(xs[1..], x)
  }

  /** Filling a Set from the group labels, then listing 'all' and the Set's elements. */
  method Categories(groups: seq<CategoryGroup>) returns (cats: seq<string>)
    ensures cats == [AllCategory] + Distinct(Labels(groups))
  {
    var unique: seq<string> := [];
    var k := 0;
    while k < |groups|
      invariant 0 <= k <= |groups|
      invariant unique == Distinct(Labels(groups)[..k])
    {
      assert Labels(groups)[..k + 1][..k] == Labels(groups)[..k];
      if groups[k].category !in unique {
        unique := unique + [groups[k].category];
      }
      k := k + 1;
    }
    assert Labels(groups)[..k] == Labels(groups);
    cats := [AllCategory] + unique;
  }

  /**
   * Distinct lists every element of its input, nothing else, each once, and in
   * the order in which the elements first occur.
   */
  lemma {:induction false} DistinctProperties(xs: seq<string>)
    ensures forall x :: x in Distinct(xs) <==> x in xs
    ensures forall j, k :: 0 <= j < k < |Distinct(xs)| ==> Distinct(xs)[j] != Distinct(xs)[k]
    ensures forall j, k :: 0 <= j < k < |Distinct(xs)| ==>
              FirstIndex(xs, Distinct(xs)[j]) < FirstIndex(xs, Distinct(xs)[k])
    decreases |xs|
  {
    if xs != [] {
      var init := xs[..|xs| - 1];
      var last := xs[|xs| - 1];
      var d := Distinct(init);
      DistinctProperties(init);
      assert xs == init + [last];
      assert forall x :: x in xs <==> x in init || x == last;
      forall x | x in init ensures FirstIndex(xs, x) == FirstIndex(init, x) {
        FirstIndexPrefix(init, xs, x);
      }
      if last in init {
        // the last element was seen before: the listing is unchanged
        assert Distinct(xs) == d;
      } else {
        // a new element: it is appended, and it occurs first after everything before it
        assert Distinct(xs) == d + [last];
        assert FirstIndex(xs, last) == |xs| - 1 by {
          assert forall j :: 0 <= j < |xs| - 1 ==> xs[j] == init[j];
        }
        assert forall x :: x in d ==> FirstIndex(xs, x) < |xs| - 1;
      }
    }
  }

  /** The first occurrence of an element of a prefix is its first occurrence in the whole sequence. */
  lemma {:induction false} FirstIndexPrefix(p: seq<string>, xs: seq<string>, x: string)
    requires x in p && p <= xs
    ensures x in xs && FirstIndex(xs, x) == FirstIndex(p, x)
  {
    var i := FirstIndex(p, x);
    assert xs[i] == x;
    assert forall j :: 0 <= j < i ==> xs[j] == p[j];
  }

  /** The category list starts with 'all', names every group's category, and nothing else. */
  lemma CategoriesListed(groups: seq<CategoryGroup>)
    ensures ([AllCategory] + Distinct(Labels(groups)))[0] == AllCategory
    ensures forall x :: x in [AllCategory] + Distinct(Labels(groups)) <==>
              x == AllCategory || exists k :: 0 <= k < |groups| && groups[k].category == x
  {
    var labels := Labels(groups);
    DistinctProperties(labels);
    assert |labels| == |groups|;
    forall x | x in labels ensures exists k :: 0 <= k < |groups| && groups[k].category == x {
      var k :| 0 <= k < |labels| && labels[k] == x;
    }
    forall k | 0 <= k < |groups| ensures groups[k].category in labels {
      assert labels[k] == groups[k].category;
    }
  }

  /** With no group labelled 'all', every entry of the category list is listed once. */
  lemma CategoriesUnique(groups: seq<CategoryGroup>)
    requires forall k :: 0 <= k < |groups| ==> groups[k].category != AllCategory
    ensures forall j, k :: 0 <= j < k < |[AllCategory] + Distinct(Labels(groups))| ==>
              ([AllCategory] + Distinct(Labels(groups)))[j] != ([AllCategory] + Distinct(Labels(groups)))[k]
  {
    var d := Distinct(Labels(groups));
    DistinctProperties(Labels(groups));
    assert forall k :: 0 <= k < |Labels(groups)| ==> Labels(groups)[k] != AllCategory;
    assert AllCategory !in Labels(groups);
    assert AllCategory !in d;
    forall j, k | 0 <= j < k < |[AllCategory] + d| ensures ([AllCategory] + d)[j] != ([AllCategory] + d)[k] {
      if j == 0 {
        assert ([AllCategory] + d)[k] == d[k - 1];
      } else {
        assert ([AllCategory] + d)[j] == d[j - 1] && ([AllCategory] + d)[k] == d[k - 1];
      }
    }
  }
}
