// The dashboard statistics of one user: counts, sums and a group-by over the
// documents that user uploaded, and the five newest of them.
module Stats {
  import opened Common
  import opened Records
  import opened Seqs

  type DocumentMap = map<Id, Document>
  type CategoryMap = map<Id, Category>

  function UploadedBy(user: Id): Document -> bool {
    (d: Document) => d.uploadedBy == user
  }

  /** `$match: { uploadedBy: user }`: the user's documents in natural order. */
  function Owned(docs: DocumentMap, user: Id): (r: seq<Document>)
    ensures forall d :: d in r <==> d in docs.Values && d.uploadedBy == user
  {
    ValuesWhere(docs, UploadedBy(user))
  }

  // ---------------------------------------------------------------------------
  // Counts and sums
  // ---------------------------------------------------------------------------

  /** `countDocuments({ uploadedBy })`: how many stored documents the user uploaded. */
  function TotalDocuments(docs: DocumentMap, user: Id): (n: nat)
    ensures n == |set id | id in docs && docs[id].uploadedBy == user|
  {
    assert KeysWhere(docs, UploadedBy(user)) == set id | id in docs && docs[id].uploadedBy == user;
    |Owned(docs, user)|
  }

  function Views(): Document -> nat { (d: Document) => d.views }
  function Downloads(): Document -> nat { (d: Document) => d.downloads }

  /** `$group: { totalViews: { $sum: '$views' } }`, and 0 when the group is missing. */
  function TotalViews(docs: DocumentMap, user: Id): (n: nat)
    ensures TotalDocuments(docs, user) == 0 ==> n == 0
    ensures forall d :: d in docs.Values && d.uploadedBy == user ==> d.views <= n
  {
    var mine := Owned(docs, user);
    SumByBound(mine, Views());
    SumBy(mine, Views())
  }

  /** `$group: { totalDownloads: { $sum: '$downloads' } }`, and 0 when the group is missing. */
  function TotalDownloads(docs: DocumentMap, user: Id): (n: nat)
    ensures TotalDocuments(docs, user) == 0 ==> n == 0
    ensures forall d :: d in docs.Values && d.uploadedBy == user ==> d.downloads <= n
  {
    var mine := Owned(docs, user);
    SumByBound(mine, Downloads());
    SumBy(mine, Downloads())
  }

  /** A sum is at least each of its terms. */
  lemma {:induction false} SumByBound<T>(s: seq<T>, f: T -> nat)
    ensures forall x :: x in s ==> f(x) <= SumBy(s, f)
  {
    if s != [] {
      SumByBound(s[1..], f);
      forall x | x in s ensures f(x) <= SumBy(s, f) {
        if x != s[0] {
          assert x in s[1..];
        }
      }
    }
  }

  /**
   * Editing one stored document without changing its uploader changes the
   * user's sum of a measure by exactly the edit's difference, when the
   * document is the user's, and not at all otherwise.
   */
  lemma EditChangesSum(docs: DocumentMap, id: Id, e: Document, user: Id, f: Document -> nat)
    requires id in docs && e.uploadedBy == docs[id].uploadedBy
    ensures docs[id].uploadedBy == user ==>
              SumBy(Owned(docs[id := e], user), f) + f(docs[id]) == SumBy(Owned(docs, user), f) + f(e)
    ensures docs[id].uploadedBy != user ==>
              SumBy(Owned(docs[id := e], user), f) == SumBy(Owned(docs, user), f)
  {
    var p := UploadedBy(user);
    var keys := KeysWhere(docs, p);
    KeysWhereUpdate(docs, p, id, e);
    var ids := NaturalOrder(keys);
    assert Owned(docs, user) == Lookup(docs, ids);
    assert Owned(docs[id := e], user) == Lookup(docs[id := e], ids);
    SumByLookupUpdate(docs, ids, id, e, f);
  }

  /** Reading a document (`views + 1`) adds one to its uploader's total views and nothing to anyone else's. */
  lemma ViewCountedOnce(docs: DocumentMap, id: Id, user: Id)
    requires id in docs
    ensures var after := docs[id := docs[id].(views := docs[id].views + 1)];
            TotalViews(after, user) == TotalViews(docs, user) + (if docs[id].uploadedBy == user then 1 else 0)
  {
    EditChangesSum(docs, id, docs[id].(views := docs[id].views + 1), user, Views());
  }

  /** Downloading a document (`downloads + 1`) adds one to its uploader's total downloads only. */
  lemma DownloadCountedOnce(docs: DocumentMap, id: Id, user: Id)
    requires id in docs
    ensures var after := docs[id := docs[id].(downloads := docs[id].downloads + 1)];
            TotalDownloads(after, user) == TotalDownloads(docs, user) + (if docs[id].uploadedBy == user then 1 else 0)
  {
    EditChangesSum(docs, id, docs[id].(downloads := docs[id].downloads + 1), user, Downloads());
  }

  // ---------------------------------------------------------------------------
  // Grouping by category
  // ---------------------------------------------------------------------------

  function CategoriesOf(s: seq<Document>): (r: seq<Id>)
    ensures |r| == |s| && forall i :: 0 <= i < |s| ==> r[i] == s[i].category
  {
    if s == [] then [] else [s[0].category] + CategoriesOf(s[1..])
  }

  /** The distinct values of `s`, each where it first appears: the keys `$group` produces. */
  function Distinct(s: seq<Id>): (r: seq<Id>)
    ensures forall x :: x in r <==> x in s
    ensures forall i, j :: 0 <= i < j < |r| ==> r[i] != r[j]
  {
    if s == [] then []
    else
      var r := Distinct(s[..|s| - 1]);
      assert forall x :: x in s <==> x in s[..|s| - 1] || x == s[|s| - 1] by {
        assert s == s[..|s| - 1] + [s[|s| - 1]];
      }
      if s[|s| - 1] in r then r else r + [s[|s| - 1]]
  }

  /** The categories the documents of `s` are filed under. */
  ghost function CategorySet(s: seq<Document>): set<Id> {
    set d | d in s :: d.category
  }

  lemma CategorySetMeaning(s: seq<Document>, c: Id)
    ensures c in CategorySet(s) <==> exists d :: d in s && d.category == c
  {
  }

  /** The categories the user's documents use. */
  ghost function UsedCategories(docs: DocumentMap, user: Id): set<Id> {
    CategorySet(Owned(docs, user))
  }

  function Elements(r: seq<Id>): set<Id> {
    set x | x in r
  }

  /** A sequence without repetitions has as many elements as its set. */
  lemma {:induction false} DistinctCardinality(r: seq<Id>)
    requires forall i, j :: 0 <= i < j < |r| ==> r[i] != r[j]
    ensures |Elements(r)| == |r|
  {
    if r != [] {
      var tail := r[1..];
      assert forall i, j :: 0 <= i < j < |tail| ==> tail[i] != tail[j] by {
        forall i, j | 0 <= i < j < |tail| ensures tail[i] != tail[j] {
          assert tail[i] == r[i + 1] && tail[j] == r[j + 1];
        }
      }
      DistinctCardinality(tail);
      assert r[0] !in tail by {
        forall j | 0 <= j < |tail| ensures tail[j] != r[0] {
          assert tail[j] == r[j + 1];
        }
      }
      assert Elements(r) == Elements(tail) + {r[0]} by {
        assert r == [r[0]] + tail;
      }
    }
  }

  /** The distinct categories of the user's documents, in order of first appearance. */
  function CategoryKeys(docs: DocumentMap, user: Id): (r: seq<Id>)
    ensures forall i, j :: 0 <= i < j < |r| ==> r[i] != r[j]
    ensures forall c :: c in r <==> c in UsedCategories(docs, user)
  {
    var mine := Owned(docs, user);
    KeysAreCategories(mine);
    Distinct(CategoriesOf(mine))
  }

  lemma KeysAreCategories(s: seq<Document>)
    ensures forall c :: c in CategoriesOf(s) <==> c in CategorySet(s)
  {
    forall c ensures c in CategoriesOf(s) <==> c in CategorySet(s) {
      if c in CategoriesOf(s) {
        var i :| 0 <= i < |s| && CategoriesOf(s)[i] == c;
        assert s[i] in s;
      }
      if c in CategorySet(s) {
        var d :| d in s && d.category == c;
        var i :| 0 <= i < |s| && s[i] == d;
        assert CategoriesOf(s)[i] == c;
      }
    }
  }

  /** `$group: { _id: '$category' }` then `$count`: the number of distinct categories used. */
  function TotalCategories(docs: DocumentMap, user: Id): (n: nat)
    ensures n == |UsedCategories(docs, user)|
  {
    var keys := CategoryKeys(docs, user);
    DistinctCardinality(keys);
    assert Elements(keys) == UsedCategories(docs, user);
    |keys|
  }

  /** How many documents of `s` are filed under category `c` (`count: { $sum: 1 }`). */
  function Count(s: seq<Document>, c: Id): (n: nat)
    ensures n <= |s|
    ensures n > 0 <==> exists d :: d in s && d.category == c
  {
    if s == [] then 0
    else
      assert forall d :: d in s <==> d == s[0] || d in s[1..] by {
        assert s == [s[0]] + s[1..];
      }
      (if s[0].category == c then 1 else 0) + Count(s[1..], c)
  }

  /** One entry of `documentsByCategory`. */
  datatype CategoryCount = CategoryCount(categoryId: Id, categoryName: string, count: nat)

  /** `$lookup` + `$unwind` + `$ifNull`: the category's name, or "Uncategorized" when none matches. */
  function NameOf(cats: CategoryMap, c: Id): string {
    if c in cats then cats[c].name else "Uncategorized"
  }

  /** The group entries for `keys`, in that order. */
  function Groups(s: seq<Document>, keys: seq<Id>, cats: CategoryMap): (r: seq<CategoryCount>)
    ensures |r| == |keys|
    ensures forall i :: 0 <= i < |keys| ==>
              r[i] == CategoryCount(keys[i], NameOf(cats, keys[i]), Count(s, keys[i]))
  {
    if keys == [] then []
    else [CategoryCount(keys[0], NameOf(cats, keys[0]), Count(s, keys[0]))] + Groups(s, keys[1..], cats)
  }

  function Counts(): CategoryCount -> nat { (e: CategoryCount) => e.count }

  /** How often `x` occurs in `keys`. */
  function Occurrences(keys: seq<Id>, x: Id): nat {
    if keys == [] then 0 else (if keys[0] == x then 1 else 0) + Occurrences(keys[1..], x)
  }

  lemma {:induction false} OccursOnce(keys: seq<Id>, x: Id)
    requires forall i, j :: 0 <= i < j < |keys| ==> keys[i] != keys[j]
    requires x in keys
    ensures Occurrences(keys, x) == 1
  {
    var tail := keys[1..];
    if keys[0] == x {
      NotOccurring(tail, x);
    } else {
      assert x in tail;
      assert forall i, j :: 0 <= i < j < |tail| ==> tail[i] != tail[j] by {
        forall i, j | 0 <= i < j < |tail| ensures tail[i] != tail[j] {
          assert tail[i] == keys[i + 1] && tail[j] == keys[j + 1];
        }
      }
      OccursOnce(tail, x);
    }
  }

  lemma {:induction false} NotOccurring(keys: seq<Id>, x: Id)
    requires x !in keys
    ensures Occurrences(keys, x) == 0
  {
    if keys != [] {
      assert keys[0] != x;
      NotOccurring(keys[1..], x);
    }
  }

  /** Adding one document to the grouped sequence adds its category's occurrences to the sum of counts. */
  lemma {:induction false} GroupsCons(d: Document, s: seq<Document>, keys: seq<Id>, cats: CategoryMap)
    ensures SumBy(Groups([d] + s, keys, cats), Counts()) ==
            SumBy(Groups(s, keys, cats), Counts()) + Occurrences(keys, d.category)
  {
    if keys != [] {
      assert ([d] + s)[1..] == s;
      GroupsCons(d, s, keys[1..], cats);
    }
  }

  lemma {:induction false} GroupsOfNothing(keys: seq<Id>, cats: CategoryMap)
    ensures SumBy(Groups([], keys, cats), Counts()) == 0
  {
    if keys != [] {
      GroupsOfNothing(keys[1..], cats);
    }
  }

  /** Grouping by distinct keys that cover every category loses and duplicates nothing: the counts add up to |s|. */
  lemma {:induction false} GroupsPartition(s: seq<Document>, keys: seq<Id>, cats: CategoryMap)
    requires forall i, j :: 0 <= i < j < |keys| ==> keys[i] != keys[j]
    requires forall d :: d in s ==> d.category in keys
    ensures SumBy(Groups(s, keys, cats), Counts()) == |s|
  {
    if s == [] {
      GroupsOfNothing(keys, cats);
    } else {
      var tail := s[1..];
      assert s == [s[0]] + tail;
      GroupsPartition(tail, keys, cats);
      GroupsCons(s[0], tail, keys, cats);
      OccursOnce(keys, s[0].category);
    }
  }

  /** `$sort: { count: -1 }`. */
  function MoreDocuments(): (CategoryCount, CategoryCount) -> bool {
    (a: CategoryCount, b: CategoryCount) => a.count >= b.count
  }

  lemma LargestFirst()
    ensures TotalPreorder(MoreDocuments())
  {
  }

  /**
   * `documentsByCategory`: one entry per category the user's documents use,
   * with its name (or "Uncategorized") and how many of those documents it
   * holds, largest count first.
   */
  function DocumentsByCategory(docs: DocumentMap, cats: CategoryMap, user: Id): (r: seq<CategoryCount>)
    ensures SortedBy(r, MoreDocuments())
    ensures multiset(r) == multiset(Groups(Owned(docs, user), CategoryKeys(docs, user), cats))
    ensures forall e :: e in r ==>
              && e.categoryId in UsedCategories(docs, user)
              && e.categoryName == NameOf(cats, e.categoryId)
              && e.count == Count(Owned(docs, user), e.categoryId) && e.count > 0
    ensures forall c :: c in UsedCategories(docs, user) ==> exists e :: e in r && e.categoryId == c
  {
    var mine := Owned(docs, user);
    var groups := Groups(mine, CategoryKeys(docs, user), cats);
    GroupsDescribeCategories(mine, CategoryKeys(docs, user), cats);
    LargestFirst();
    var r := SortBy(groups, MoreDocuments());
    SameElements(r, groups);
    r
  }

  /** The group entries over the categories of `s` name each category once, with its count. */
  lemma GroupsDescribeCategories(s: seq<Document>, keys: seq<Id>, cats: CategoryMap)
    requires forall c :: c in keys <==> c in CategorySet(s)
    ensures forall e :: e in Groups(s, keys, cats) ==>
              && e.categoryId in CategorySet(s)
              && e.categoryName == NameOf(cats, e.categoryId)
              && e.count == Count(s, e.categoryId) && e.count > 0
    ensures forall c :: c in CategorySet(s) ==> exists e :: e in Groups(s, keys, cats) && e.categoryId == c
  {
    forall e | e in Groups(s, keys, cats)
      ensures e.categoryId in CategorySet(s) && e.count == Count(s, e.categoryId) && e.count > 0
    {
      GroupIsCategory(s, keys, cats, e);
    }
    forall c | c in CategorySet(s) ensures exists e :: e in Groups(s, keys, cats) && e.categoryId == c {
      CategoryIsGrouped(s, keys, cats, c);
    }
  }

  /** One group entry names a category some document uses, with its positive count. */
  lemma GroupIsCategory(s: seq<Document>, keys: seq<Id>, cats: CategoryMap, e: CategoryCount)
    requires forall c :: c in keys <==> c in CategorySet(s)
    requires e in Groups(s, keys, cats)
    ensures e.categoryId in CategorySet(s) && e.count == Count(s, e.categoryId) && e.count > 0
  {
    var groups := Groups(s, keys, cats);
    var i :| 0 <= i < |keys| && groups[i] == e;
    assert keys[i] in keys;
    CategorySetMeaning(s, keys[i]);
  }

  /** A category some document uses has a group entry. */
  lemma CategoryIsGrouped(s: seq<Document>, keys: seq<Id>, cats: CategoryMap, c: Id)
    requires forall k :: k in keys <==> k in CategorySet(s)
    requires c in CategorySet(s)
    ensures exists e :: e in Groups(s, keys, cats) && e.categoryId == c
  {
    var groups := Groups(s, keys, cats);
    var i :| 0 <= i < |keys| && keys[i] == c;
    assert groups[i] in groups;
  }

  /** The entries of `documentsByCategory` account for every document exactly once, and there is one per category. */
  lemma CategoryCountsAddUp(docs: DocumentMap, cats: CategoryMap, user: Id)
    ensures SumBy(DocumentsByCategory(docs, cats, user), Counts()) == TotalDocuments(docs, user)
    ensures |DocumentsByCategory(docs, cats, user)| == TotalCategories(docs, user)
  {
    var mine := Owned(docs, user);
    var keys := CategoryKeys(docs, user);
    var groups := Groups(mine, keys, cats);
    forall d | d in mine ensures d.category in keys {
      assert d.category in UsedCategories(docs, user);
    }
    GroupsPartition(mine, keys, cats);
    SumBySort(groups, MoreDocuments(), Counts());
  }

  // ---------------------------------------------------------------------------
  // Recent documents and the whole answer
  // ---------------------------------------------------------------------------

  lemma NewestFirst()
    ensures TotalPreorder(NewerDocument())
  {
  }

  /** `find({ uploadedBy }).sort({ createdAt: -1 }).limit(5)`. */
  function RecentDocuments(docs: DocumentMap, user: Id): (r: seq<Document>)
    ensures |r| == Min(5, TotalDocuments(docs, user))
    ensures forall d :: d in r ==> d in docs.Values && d.uploadedBy == user
    ensures SortedBy(r, NewerDocument())
  {
    var mine := Owned(docs, user);
    NewestFirst();
    var sorted := SortBy(mine, NewerDocument());
    SameElements(sorted, mine);
    assert |mine| == TotalDocuments(docs, user);
    Take(sorted, 5)
  }

  /** No document of the user left out of the recent list is newer than one in it. */
  lemma RecentAreNewest(docs: DocumentMap, user: Id)
    ensures var r := RecentDocuments(docs, user);
            forall d, e :: d in docs.Values && d.uploadedBy == user && d !in r && e in r ==>
              d.createdAt <= e.createdAt
  {
    var mine := Owned(docs, user);
    NewestFirst();
    var sorted := SortBy(mine, NewerDocument());
    var r := Take(sorted, 5);
    forall d, e | d in docs.Values && d.uploadedBy == user && d !in r && e in r
      ensures d.createdAt <= e.createdAt
    {
      SameElements(sorted, mine);
      OutsidePrefix(sorted, 5, NewerDocument(), d, e);
    }
  }

  datatype Dashboard = Dashboard(
    totalDocuments: nat,
    totalViews: nat,
    totalDownloads: nat,
    totalCategories: nat,
    documentsByCategory: seq<CategoryCount>,
    recentDocuments: seq<Document>)

  /** `getStats`: the six statistics of one user, which agree with each other. */
  function GetStats(docs: DocumentMap, cats: CategoryMap, user: Id): (r: Dashboard)
    ensures SumBy(r.documentsByCategory, Counts()) == r.totalDocuments
    ensures |r.documentsByCategory| == r.totalCategories <= r.totalDocuments
    ensures |r.recentDocuments| == Min(5, r.totalDocuments)
    ensures r.totalDocuments == 0 ==> r.totalViews == 0 && r.totalDownloads == 0 && r.documentsByCategory == []
  {
    CategoryCountsAddUp(docs, cats, user);
    var byCategory := DocumentsByCategory(docs, cats, user);
    assert TotalCategories(docs, user) <= TotalDocuments(docs, user) by {
      forall e | e in byCategory ensures 1 <= Counts()(e) { }
      SumAtLeastLength(byCategory);
    }
    Dashboard(
      TotalDocuments(docs, user),
      TotalViews(docs, user),
      TotalDownloads(docs, user),
      TotalCategories(docs, user),
      byCategory,
      RecentDocuments(docs, user))
  }

  /** Counts that are all positive add up to at least their number. */
  lemma {:induction false} SumAtLeastLength(s: seq<CategoryCount>)
    requires forall e :: e in s ==> e.count > 0
    ensures |s| <= SumBy(s, Counts())
  {
    if s != [] {
      assert s[0] in s;
      assert forall e :: e in s[1..] ==> e in s;
      SumAtLeastLength(s[1..]);
    }
  }
}
