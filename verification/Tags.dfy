/** Listing tags page by page (internal/api/handlers/manifests.go), as in "Listing Tags" of the OCI Distribution
    Specification. The store lists a directory, whose entries come sorted. */
module Tags {
  import opened Common
  import opened Text

  ghost predicate Sorted(tags: seq<string>) {
    forall i, j | 0 <= i < j < |tags| :: Less(tags[i], tags[j])
  }

  /** What a directory listing gives: sorted file names, none of them empty. */
  ghost predicate IsListing(tags: seq<string>) {
    Sorted(tags) && forall t | t in tags :: t != ""
  }

  function FilterAfter(tags: seq<string>, after: string): seq<string> {
    if tags == [] then []
    else (if Less(after, tags[0]) then [tags[0]] else []) + FilterAfter(tags[1..], after)
  }

  lemma FilterStep(tags: seq<string>, i: nat, after: string)
    requires i < |tags|
    ensures FilterAfter(tags[i..], after) ==
            if Less(after, tags[i]) then [tags[i]] + FilterAfter(tags[i + 1..], after)
            else FilterAfter(tags[i + 1..], after)
  {
    assert tags[i..][0] == tags[i] && tags[i..][1..] == tags[i + 1..];
  }

  method FilterTagsAfter(tags: seq<string>, after: string) returns (result: seq<string>)
    ensures result == FilterAfter(tags, after)
  {
    result := [];
    var i := 0;
    assert tags[0..] == tags;
    while i < |tags|
      invariant 0 <= i <= |tags|
      invariant FilterAfter(tags, after) == result + FilterAfter(tags[i..], after)
    {
      FilterStep(tags, i, after);
      if Less(after, tags[i]) {
        Regroup(result, tags[i], FilterAfter(tags[i + 1..], after));
        result := result + [tags[i]];
      }
      i := i + 1;
    }
  }

  /** The answer to one request: the tags, and the last one if a Link header leads on. */
  datatype Page = Page(tags: seq<string>, next: Option<string>)

  /** n is what Atoi makes of the query parameter, last is empty when it is missing. */
  function PageOf(allTags: seq<string>, n: Option<int>, last: string): Page {
    var tags := if last == "" then allTags else FilterAfter(allTags, last);
    if n.Some? && 0 < n.value < |tags| then Page(tags[..n.value], Some(tags[n.value - 1])) else Page(tags, None)
  }

  method ListTags(allTags: seq<string>, n: Option<int>, last: string) returns (page: Page)
    ensures page == PageOf(allTags, n, last)
  {
    var tags := allTags;
    var next := None;
    if last != "" {
      tags := FilterTagsAfter(allTags, last);
    }
    if n.Some? && n.value > 0 {
      if |tags| > n.value {
        tags := tags[..n.value];
        next := Some(tags[|tags| - 1]);
      }
    }
    page := Page(tags, next);
  }

  /** A page is the first part of what comes after the last tag: all of it when no number is given, or none that is
      positive and smaller; then no link leads on. Otherwise the link names the page's last tag. */
  lemma PageIsExactly(listing: seq<string>, n: Option<int>, last: string) returns (k: nat)
    requires IsListing(listing)
    ensures k <= |listing|
    ensures forall i | 0 <= i < |listing| :: last == "" || Less(last, listing[i]) <==> k <= i
    ensures var page, rest := PageOf(listing, n, last), listing[k..];
            && ((n == None || n.value <= 0 || n.value >= |rest|) ==> page.tags == rest && page.next == None)
            && (n != None && 0 < n.value < |rest| ==>
                  page.tags == rest[..n.value] && page.next == Some(rest[n.value - 1]))
  {
    if last == "" {
      k := 0;
      assert listing[0..] == listing;
    } else {
      k := FilterIsASuffix(listing, last);
    }
  }

  lemma {:induction false} FilterIsASuffix(listing: seq<string>, last: string) returns (k: nat)
    requires Sorted(listing)
    ensures k <= |listing| && FilterAfter(listing, last) == listing[k..]
    ensures forall i | 0 <= i < |listing| :: Less(last, listing[i]) <==> k <= i
  {
    if listing == [] {
      k := 0;
    } else if Less(last, listing[0]) {
      forall i | 0 < i < |listing|
        ensures Less(last, listing[i])
      {
        LessIsTransitive(last, listing[0], listing[i]);
      }
      k := 0;
      AllLater(listing, last);
      assert listing[0..] == listing;
    } else {
      var rest := FilterIsASuffix(listing[1..], last);
      k := rest + 1;
      assert listing[1..][rest..] == listing[k..];
    }
  }

  /** The tags that a request with this last tag is about. */
  predicate After(tag: string, last: string) {
    last == "" || Less(last, tag)
  }

  lemma {:induction false} FilterKeepsExactlyTheLater(tags: seq<string>, after: string)
    requires Sorted(tags)
    ensures Sorted(FilterAfter(tags, after))
    ensures forall t :: t in FilterAfter(tags, after) <==> t in tags && Less(after, t)
  {
    if tags != [] {
      var rest := tags[1..];
      FilterKeepsExactlyTheLater(rest, after);
      assert forall t :: t in tags <==> t == tags[0] || t in rest;
      forall t | t in FilterAfter(rest, after)
        ensures Less(tags[0], t)
      {
        var i :| 0 <= i < |rest| && rest[i] == t;
        assert tags[i + 1] == t;
      }
    }
  }

  /** A page holds, of the tags after last, those up to its end; they are the first ones. */
  lemma PageIsAPrefix(listing: seq<string>, n: Option<int>, last: string)
    requires IsListing(listing)
    ensures var page := PageOf(listing, n, last);
            && IsListing(page.tags)
            && (forall t | t in page.tags :: t in listing && After(t, last))
            && (n.Some? && n.value > 0 ==> |page.tags| <= n.value)
            && (match page.next
                case None => forall t | t in listing && After(t, last) :: t in page.tags
                case Some(end) =>
                  && end != "" && After(end, last) && end in page.tags
                  && (forall t | t in page.tags :: t == end || Less(t, end))
                  && (forall t | t in listing && After(t, last) && !Less(end, t) :: t in page.tags))
  {
    FilterKeepsExactlyTheLater(listing, last);
    var tags := if last == "" then listing else FilterAfter(listing, last);
    assert forall t :: t in tags <==> t in listing && After(t, last);
    if n.Some? && 0 < n.value < |tags| {
      FirstOfSorted(tags, n.value);
      assert tags[n.value - 1] in tags;
    }
  }

  lemma FirstOfSorted(tags: seq<string>, k: nat)
    requires Sorted(tags) && 0 < k <= |tags|
    ensures Sorted(tags[..k]) && tags[k - 1] in tags[..k]
    ensures forall t | t in tags[..k] :: t in tags && (t == tags[k - 1] || Less(t, tags[k - 1]))
    ensures forall t | t in tags && !Less(tags[k - 1], t) :: t in tags[..k]
  {
    assert tags[..k][k - 1] == tags[k - 1];
    forall t | t in tags && !Less(tags[k - 1], t)
      ensures t in tags[..k]
    {
      var i :| 0 <= i < |tags| && tags[i] == t;
      assert tags[..k][i] == t;
    }
    forall t | t in tags[..k]
      ensures t in tags && (t == tags[k - 1] || Less(t, tags[k - 1]))
    {
      var i :| 0 <= i < k && tags[..k][i] == t;
      assert tags[i] == t;
    }
  }

  // ---------------------------------------------------------------- following the links

  /** A client follows the links until there is none; every page may be cut from another listing. */
  ghost predicate Enumeration(listings: seq<seq<string>>, n: Option<int>, last: string, pages: seq<seq<string>>)
    decreases |pages|
  {
    && pages != [] && |listings| == |pages|
    && var page := PageOf(listings[0], n, last);
       && pages[0] == page.tags
       && if |pages| == 1 then page.next.None?
          else page.next.Some? && Enumeration(listings[1..], n, page.next.value, pages[1..])
  }

  ghost predicate Lasting(listings: seq<seq<string>>, tag: string) {
    forall l | l in listings :: tag in l
  }

  ghost predicate Listed(listings: seq<seq<string>>, tag: string) {
    exists l :: l in listings && tag in l
  }

  lemma AppendSorted(a: seq<string>, b: seq<string>)
    requires Sorted(a) && Sorted(b) && forall x, y | x in a && y in b :: Less(x, y)
    ensures Sorted(a + b)
  {
    var c := a + b;
    forall i, j | 0 <= i < j < |c|
      ensures Less(c[i], c[j])
    {
      if i < |a| <= j {
        assert c[i] in a && c[j] in b;
      }
    }
  }

  lemma {:induction false} EnumerationIsComplete(listings: seq<seq<string>>, n: Option<int>, last: string, pages: seq<seq<string>>)
    requires Enumeration(listings, n, last, pages) && forall l | l in listings :: IsListing(l)
    ensures Sorted(Flatten(pages))
    ensures forall t | t in Flatten(pages) :: After(t, last) && Listed(listings, t)
    ensures forall t | Lasting(listings, t) && After(t, last) :: t in Flatten(pages)
    decreases |pages|
  {
    var page := PageOf(listings[0], n, last);
    PageIsAPrefix(listings[0], n, last);
    if |pages| == 1 {
      assert pages[1..] == [] && Flatten(pages) == page.tags + [];
    } else {
      var end, rest := page.next.value, Flatten(pages[1..]);
      EnumerationIsComplete(listings[1..], n, end, pages[1..]);
      forall x, y | x in page.tags && y in rest
        ensures Less(x, y)
      {
        if x != end {
          LessIsTransitive(x, end, y);
        }
      }
      AppendSorted(page.tags, rest);
      forall t | t in rest
        ensures After(t, last) && Listed(listings, t)
      {
        assert Listed(listings[1..], t);
        if last != "" {
          LessIsTransitive(last, end, t);
        }
      }
      forall t | Lasting(listings, t) && After(t, last)
        ensures t in Flatten(pages)
      {
        assert Lasting(listings[1..], t);
      }
    }
  }

  lemma SortedHasNoDuplicates(tags: seq<string>)
    requires Sorted(tags)
    ensures Distinct(tags)
  {
    forall i, j | 0 <= i < j < |tags|
      ensures tags[i] != tags[j]
    {
      LessIsIrreflexive(tags[i]);
    }
  }

  /** Tags may come and go between the pages: no tag is ever listed twice, each that was there all the time is listed,
      and none that was never there. */
  lemma LastingTagsAppearOnce(listings: seq<seq<string>>, n: Option<int>, pages: seq<seq<string>>, tag: string)
    requires Enumeration(listings, n, "", pages) && forall l | l in listings :: IsListing(l)
    ensures Distinct(Flatten(pages))
    ensures forall t | t in Flatten(pages) :: Listed(listings, t)
    ensures Lasting(listings, tag) ==> tag in Flatten(pages)
  {
    EnumerationIsComplete(listings, n, "", pages);
    SortedHasNoDuplicates(Flatten(pages));
  }

  /** How much of a listing is left after a tag. */
  function Left(tags: seq<string>, last: string): nat {
    if last == "" then |tags| else |FilterAfter(tags, last)|
  }

  /** All pages of a listing that does not change: the links always lead on, so they come to an end. */
  ghost function AllPages(tags: seq<string>, n: nat, last: string): seq<seq<string>>
    requires IsListing(tags) && n > 0 && (last == "" || last in tags)
    decreases Left(tags, last)
  {
    var page := PageOf(tags, Some(n), last);
    match page.next
    case None => [page.tags]
    case Some(end) =>
      LinksLeadOn(tags, n, last);
      [page.tags] + AllPages(tags, n, end)
  }

  lemma LinksLeadOn(tags: seq<string>, n: nat, last: string)
    requires IsListing(tags) && n > 0 && (last == "" || last in tags)
    requires PageOf(tags, Some(n), last).next.Some?
    ensures var end := PageOf(tags, Some(n), last).next.value;
            end in tags && end != "" && Left(tags, end) < Left(tags, last)
  {
    var k: nat := 0;
    if last != "" {
      var j :| 0 <= j < |tags| && tags[j] == last;
      k := j + 1;
    }
    PageFrom(tags, n, last, k);
    assert tags[k + n - 1] in tags;
    FilterOfSorted(tags, k + n - 1);
  }

  lemma {:induction false} FilterOfSorted(tags: seq<string>, k: nat)
    requires Sorted(tags) && k < |tags|
    ensures FilterAfter(tags, tags[k]) == tags[k + 1..]
  {
    if k == 0 {
      LessIsIrreflexive(tags[0]);
      AllLater(tags[1..], tags[0]);
    } else {
      if Less(tags[k], tags[0]) {
        LessIsTransitive(tags[0], tags[k], tags[0]);
        LessIsIrreflexive(tags[0]);
      }
      FilterOfSorted(tags[1..], k - 1);
    }
  }

  lemma {:induction false} AllLater(tags: seq<string>, after: string)
    requires forall t | t in tags :: Less(after, t)
    ensures FilterAfter(tags, after) == tags
  {
    if tags != [] {
      AllLater(tags[1..], after);
    }
  }

  /** A list cut into pieces of n. */
  function Cut(tags: seq<string>, n: nat): seq<seq<string>>
    requires n > 0
    decreases |tags|
  {
    if |tags| <= n then [tags] else [tags[..n]] + Cut(tags[n..], n)
  }

  lemma {:induction false} CutIsComplete(tags: seq<string>, n: nat)
    requires n > 0
    ensures Flatten(Cut(tags, n)) == tags
    ensures |Cut(tags, n)| >= 1 && |tags| <= |Cut(tags, n)| * n
    ensures tags != [] ==> (|Cut(tags, n)| - 1) * n < |tags|
    decreases |tags|
  {
    var pages := Cut(tags, n);
    if |tags| <= n {
      assert pages[1..] == [] && tags + [] == tags;
    } else {
      CutIsComplete(tags[n..], n);
      assert pages[1..] == Cut(tags[n..], n);
      assert tags == tags[..n] + tags[n..];
    }
  }

  lemma CutStep(tags: seq<string>, n: nat, k: nat)
    requires n > 0 && k <= |tags|
    ensures Cut(tags[k..], n) == if n < |tags| - k then [tags[k..][..n]] + Cut(tags[k + n..], n) else [tags[k..]]
  {
    if n < |tags| - k {
      assert tags[k..][n..] == tags[k + n..];
    }
  }

  /** The pages from the k-th tag on. */
  ghost function PagesAt(tags: seq<string>, n: nat, k: nat): seq<seq<string>> {
    if !IsListing(tags) || n == 0 || k > |tags| then []
    else if k == 0 then AllPages(tags, n, "") else AllPages(tags, n, tags[k - 1])
  }

  function CutAt(tags: seq<string>, n: nat, k: nat): seq<seq<string>> {
    if n == 0 || k > |tags| then [] else Cut(tags[k..], n)
  }

  lemma PagesAtStep(tags: seq<string>, n: nat, k: nat)
    requires IsListing(tags) && n > 0 && k <= |tags|
    ensures PagesAt(tags, n, k) ==
            if n < |tags| - k then [tags[k..][..n]] + PagesAt(tags, n, k + n) else [tags[k..]]
  {
    if k > 0 {
      assert tags[k - 1] in tags;
    }
    PagesStep(tags, n, if k == 0 then "" else tags[k - 1], k);
    if n < |tags| - k {
      assert tags[k + n - 1] in tags;
    }
  }

  function PageAt(tags: seq<string>, n: nat, k: nat): seq<string> {
    if k > |tags| then [] else if n < |tags| - k then tags[k..][..n] else tags[k..]
  }

  ghost function PagesFrom(tags: seq<string>, n: nat): nat -> seq<seq<string>> {
    (k: nat) => PagesAt(tags, n, k)
  }

  ghost function CutFrom(tags: seq<string>, n: nat): nat -> seq<seq<string>> {
    (k: nat) => CutAt(tags, n, k)
  }

  ghost function EachPage(tags: seq<string>, n: nat): nat -> seq<string> {
    (k: nat) => PageAt(tags, n, k)
  }

  ghost predicate Steps(f: nat -> seq<seq<string>>, page: nat -> seq<string>, n: nat, size: nat, k: nat) {
    f(k) == if n < size - k then [page(k)] + f(k + n) else [page(k)]
  }

  /** Two ways of going through a list that take the same steps are the same. */
  lemma {:induction false} SameSteps(f: nat -> seq<seq<string>>, g: nat -> seq<seq<string>>, page: nat -> seq<string>,
                                     n: nat, size: nat, k: nat)
    requires n > 0 && k <= size
    requires forall j: nat | j <= size :: Steps(f, page, n, size, j) && Steps(g, page, n, size, j)
    ensures f(k) == g(k)
    decreases size - k
  {
    assert Steps(f, page, n, size, k) && Steps(g, page, n, size, k);
    if n < size - k {
      SameSteps(f, g, page, n, size, k + n);
    }
  }

  lemma PagesTakeSteps(tags: seq<string>, n: nat)
    requires IsListing(tags) && n > 0
    ensures forall k: nat | k <= |tags| :: Steps(PagesFrom(tags, n), EachPage(tags, n), n, |tags|, k)
  {
    forall k: nat | k <= |tags|
      ensures Steps(PagesFrom(tags, n), EachPage(tags, n), n, |tags|, k)
    {
      PagesAtStep(tags, n, k);
    }
  }

  lemma CutTakesSteps(tags: seq<string>, n: nat)
    requires n > 0
    ensures forall k: nat | k <= |tags| :: Steps(CutFrom(tags, n), EachPage(tags, n), n, |tags|, k)
  {
    forall k: nat | k <= |tags|
      ensures Steps(CutFrom(tags, n), EachPage(tags, n), n, |tags|, k)
    {
      CutStep(tags, n, k);
    }
  }

  /** Following the links of a listing that does not change cuts it up. */
  lemma PagesAreCut(tags: seq<string>, n: nat)
    requires IsListing(tags) && n > 0
    ensures AllPages(tags, n, "") == Cut(tags, n)
  {
    PagesTakeSteps(tags, n);
    CutTakesSteps(tags, n);
    SameSteps(PagesFrom(tags, n), CutFrom(tags, n), EachPage(tags, n), n, |tags|, 0);
    assert PagesAt(tags, n, 0) == CutAt(tags, n, 0);
    assert tags[0..] == tags;
  }

  lemma PagesStep(tags: seq<string>, n: nat, last: string, k: nat)
    requires IsListing(tags) && n > 0 && k <= |tags|
    requires if k == 0 then last == "" else last == tags[k - 1] && last in tags
    ensures AllPages(tags, n, last) ==
            if n < |tags| - k && tags[k + n - 1] in tags then [tags[k..][..n]] + AllPages(tags, n, tags[k + n - 1]) else [tags[k..]]
  {
    PageFrom(tags, n, last, k);
    if n < |tags| - k {
      assert tags[k + n - 1] in tags;
    }
  }

  lemma PageFrom(tags: seq<string>, n: nat, last: string, k: nat)
    requires IsListing(tags) && n > 0 && k <= |tags|
    requires if k == 0 then last == "" else last == tags[k - 1]
    ensures last != "" ==> |FilterAfter(tags, last)| == |tags| - k
    ensures PageOf(tags, Some(n), last) ==
            if n < |tags| - k then Page(tags[k..][..n], Some(tags[k + n - 1])) else Page(tags[k..], None)
  {
    assert tags[0..] == tags;
    if k > 0 {
      assert last in tags;
      FilterOfSorted(tags, k - 1);
    }
  }

  /** The pages put together are the sorted list of tags, once. */
  lemma PaginationIsComplete(tags: seq<string>, n: nat)
    requires IsListing(tags) && n > 0
    ensures Flatten(AllPages(tags, n, "")) == tags
    ensures tags != [] ==> (|AllPages(tags, n, "")| - 1) * n < |tags| <= |AllPages(tags, n, "")| * n
  {
    PagesAreCut(tags, n);
    CutIsComplete(tags, n);
    assert tags[0..] == tags;
  }
}
