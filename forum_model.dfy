/**
 * The read side of the forum handlers over in-memory tables: which rows
 * each query returns and in what order, plus the well-formedness of the
 * four forum tables that every handler keeps.
 */
module ForumModel {
  import opened Wrappers
  import opened Entities
  import Strings
  import Tables

  /** SQL `LIKE '%q%'` under the database's collation, left abstract. */
  type Matcher = (string, string) -> bool

  // ---------------------------------------------------------------------
  // Well-formed tables

  predicate CategoriesWellFormed(categories: map<int, Category>, next: int) {
    forall k :: k in categories ==> 1 <= k < next && categories[k].id == k
  }

  /** Every subforum belongs to an existing category. */
  predicate SubforumsWellFormed(subforums: map<int, Subforum>, next: int, categories: map<int, Category>) {
    forall k :: k in subforums ==> 1 <= k < next && subforums[k].id == k && subforums[k].categoryId in categories
  }

  /** Every thread belongs to an existing subforum; creation stamps grow with the key. */
  ghost predicate ThreadsWellFormed(threads: map<int, Thread>, next: int, subforums: map<int, Subforum>, clock: int) {
    && (forall k :: k in threads ==>
          1 <= k < next && threads[k].id == k && threads[k].subforumId in subforums && threads[k].createdAt < clock)
    && Tables.Chronological(threads, (t: Thread) => t.createdAt)
  }

  /** Every post belongs to an existing thread; creation stamps grow with the key. */
  ghost predicate PostsWellFormed(posts: map<int, Post>, next: int, threads: map<int, Thread>, clock: int) {
    && (forall k :: k in posts ==>
          1 <= k < next && posts[k].id == k && posts[k].threadId in threads && posts[k].createdAt < clock)
    && Tables.Chronological(posts, (p: Post) => p.createdAt)
  }

  // ---------------------------------------------------------------------
  // Queries

  /** `categoryRepository.find(...)` without an order: ascending key. */
  function AllCategories(categories: map<int, Category>, hi: int): seq<Category> {
    Tables.Rows(categories, Tables.Ascending(categories, (c: Category) => true, hi))
  }

  /** The `subforums` relation of a category, in ascending key order. */
  function SubforumsOf(subforums: map<int, Subforum>, categoryId: int, hi: int): seq<Subforum> {
    Tables.Rows(subforums, Tables.Ascending(subforums, (s: Subforum) => s.categoryId == categoryId, hi))
  }

  /** `where: { subforum }, order: { createdAt: 'DESC' }` */
  function ThreadsOf(threads: map<int, Thread>, subforumId: int, hi: int): seq<Thread> {
    Tables.Reverse(Tables.Rows(threads, Tables.Ascending(threads, (t: Thread) => t.subforumId == subforumId, hi)))
  }

  /** `where: { thread }, order: { createdAt: 'ASC' }` */
  function PostsOf(posts: map<int, Post>, threadId: int, hi: int): seq<Post> {
    Tables.Rows(posts, Tables.Ascending(posts, (p: Post) => p.threadId == threadId, hi))
  }

  /** `where: { title: Like('%q%') }, order: { createdAt: 'DESC' }` */
  function ThreadsTitled(threads: map<int, Thread>, q: string, like: Matcher, hi: int): seq<Thread> {
    Tables.Reverse(Tables.Rows(threads, Tables.Ascending(threads, (t: Thread) => like(t.title, q), hi)))
  }

  /** `where: { content: Like('%q%') }, order: { createdAt: 'DESC' }` */
  function PostsContaining(posts: map<int, Post>, q: string, like: Matcher, hi: int): seq<Post> {
    Tables.Reverse(Tables.Rows(posts, Tables.Ascending(posts, (p: Post) => like(p.content, q), hi)))
  }

  // ---------------------------------------------------------------------
  // Ordering by name (`order: { name: 'ASC' }`)

  predicate NameSorted(xs: seq<Subforum>) {
    forall i, j :: 0 <= i < j < |xs| ==> Strings.LexLessEq(xs[i].name, xs[j].name)
  }

  /** A subforum whose name sorts no later than the head of a sorted list can go in front. */
  lemma PrependSorted(x: Subforum, xs: seq<Subforum>)
    requires NameSorted(xs) && |xs| > 0 && Strings.LexLessEq(x.name, xs[0].name)
    ensures NameSorted([x] + xs)
  {
    var r := [x] + xs;
    forall i, j | 0 <= i < j < |r| ensures Strings.LexLessEq(r[i].name, r[j].name) {
      if i == 0 && j > 1 {
        Strings.LexTransitive(x.name, xs[0].name, xs[j - 1].name);
      }
    }
  }

  /** The head of a sorted list sorts no later than anything inserted after it. */
  lemma ConsSorted(x: Subforum, xs: seq<Subforum>, rest: seq<Subforum>)
    requires NameSorted(xs) && |xs| > 0 && !Strings.LexLessEq(x.name, xs[0].name)
    requires NameSorted(rest) && multiset(rest) == multiset(xs[1..]) + multiset{x}
    ensures NameSorted([xs[0]] + rest)
  {
    Strings.LexTotal(x.name, xs[0].name);
    var r := [xs[0]] + rest;
    forall j | 0 < j < |r| ensures Strings.LexLessEq(xs[0].name, r[j].name) {
      var y := rest[j - 1];
      assert y in multiset(rest);
      if y != x {
        assert y in multiset(xs[1..]);
        var k :| 0 <= k < |xs[1..]| && xs[1..][k] == y;
        assert xs[k + 1] == y;
      }
    }
  }

  /** Insert `x` before the first subforum whose name is not smaller. */
  function InsertByName(x: Subforum, xs: seq<Subforum>): (r: seq<Subforum>)
    requires NameSorted(xs)
    ensures multiset(r) == multiset(xs) + multiset{x}
    ensures NameSorted(r)
    decreases |xs|
  {
    if |xs| == 0 then [x]
    else if Strings.LexLessEq(x.name, xs[0].name) then
      PrependSorted(x, xs);
      [x] + xs
    else
      var rest := InsertByName(x, xs[1..]);
      ConsSorted(x, xs, rest);
      assert xs == [xs[0]] + xs[1..];
      [xs[0]] + rest
  }

  /** The subforums ordered by name, ascending. */
  function SortByName(xs: seq<Subforum>): (r: seq<Subforum>)
    ensures multiset(r) == multiset(xs)
    ensures NameSorted(r)
    decreases |xs|
  {
    if |xs| == 0 then []
    else
      assert xs == [xs[0]] + xs[1..];
      InsertByName(xs[0], SortByName(xs[1..]))
  }

  // ---------------------------------------------------------------------
  // Properties of the queries

  /** The category listing holds every category exactly once, by key. */
  lemma AllCategoriesExact(categories: map<int, Category>, hi: int)
    requires forall k :: k in categories ==> 1 <= k < hi && categories[k].id == k
    ensures forall c :: c in AllCategories(categories, hi) <==> c.id in categories && categories[c.id] == c
    ensures |AllCategories(categories, hi)| == |categories|
  {
    var keep := (c: Category) => true;
    Tables.RowsExact(categories, keep, hi, (c: Category) => c.id);
    Tables.AscendingCount(categories, keep, hi);
    assert Tables.Matching(categories, keep, hi) == categories.Keys;
  }

  /** A category's `subforums` relation holds exactly its subforums. */
  lemma SubforumsOfExact(subforums: map<int, Subforum>, categoryId: int, hi: int)
    requires forall k :: k in subforums ==> 1 <= k < hi && subforums[k].id == k
    ensures forall s :: s in SubforumsOf(subforums, categoryId, hi) <==>
      s.id in subforums && subforums[s.id] == s && s.categoryId == categoryId
  {
    Tables.RowsExact(subforums, (s: Subforum) => s.categoryId == categoryId, hi, (s: Subforum) => s.id);
  }

  /** `SubforumsOfExact`, for every category at once. */
  lemma SubforumsOfExactAll(subforums: map<int, Subforum>, hi: int)
    requires forall k :: k in subforums ==> 1 <= k < hi && subforums[k].id == k
    ensures forall c, s :: s in SubforumsOf(subforums, c, hi) <==>
      s.id in subforums && subforums[s.id] == s && s.categoryId == c
  {
    forall c ensures forall s :: s in SubforumsOf(subforums, c, hi) <==>
      s.id in subforums && subforums[s.id] == s && s.categoryId == c
    {
      SubforumsOfExact(subforums, c, hi);
    }
  }

  /** A subforum's thread list holds exactly that subforum's threads. */
  lemma ThreadsOfExact(threads: map<int, Thread>, subforumId: int, hi: int)
    requires forall k :: k in threads ==> 1 <= k < hi && threads[k].id == k
    ensures forall t :: t in ThreadsOf(threads, subforumId, hi) <==>
      t.id in threads && threads[t.id] == t && t.subforumId == subforumId
  {
    var keep := (t: Thread) => t.subforumId == subforumId;
    Tables.RowsExact(threads, keep, hi, (t: Thread) => t.id);
    Tables.ReverseSameElements(Tables.Rows(threads, Tables.Ascending(threads, keep, hi)));
  }

  /** A subforum's threads are listed newest first. */
  lemma ThreadsOfNewestFirst(threads: map<int, Thread>, subforumId: int, hi: int)
    requires Tables.Chronological(threads, (t: Thread) => t.createdAt)
    ensures forall i, j :: 0 <= i < j < |ThreadsOf(threads, subforumId, hi)| ==>
      ThreadsOf(threads, subforumId, hi)[i].createdAt > ThreadsOf(threads, subforumId, hi)[j].createdAt
  {
    var ks := Tables.Ascending(threads, (t: Thread) => t.subforumId == subforumId, hi);
    Tables.RowsChronological(threads, (t: Thread) => t.createdAt, ks);
  }

  /** The reported total is the number of threads in the subforum. */
  lemma ThreadsOfCount(threads: map<int, Thread>, subforumId: int, hi: int)
    requires forall k :: k in threads ==> 1 <= k < hi
    ensures |ThreadsOf(threads, subforumId, hi)| == |set k | k in threads && threads[k].subforumId == subforumId|
  {
    var keep := (t: Thread) => t.subforumId == subforumId;
    Tables.AscendingCount(threads, keep, hi);
    assert Tables.Matching(threads, keep, hi) == set k | k in threads && threads[k].subforumId == subforumId;
  }

  /** A thread's post list holds exactly that thread's posts. */
  lemma PostsOfExact(posts: map<int, Post>, threadId: int, hi: int)
    requires forall k :: k in posts ==> 1 <= k < hi && posts[k].id == k
    ensures forall p :: p in PostsOf(posts, threadId, hi) <==>
      p.id in posts && posts[p.id] == p && p.threadId == threadId
  {
    Tables.RowsExact(posts, (p: Post) => p.threadId == threadId, hi, (p: Post) => p.id);
  }

  /** A thread's posts are listed oldest first. */
  lemma PostsOfOldestFirst(posts: map<int, Post>, threadId: int, hi: int)
    requires Tables.Chronological(posts, (p: Post) => p.createdAt)
    ensures forall i, j :: 0 <= i < j < |PostsOf(posts, threadId, hi)| ==>
      PostsOf(posts, threadId, hi)[i].createdAt < PostsOf(posts, threadId, hi)[j].createdAt
  {
    var ks := Tables.Ascending(posts, (p: Post) => p.threadId == threadId, hi);
    Tables.RowsChronological(posts, (p: Post) => p.createdAt, ks);
  }

  /** The reported total is the number of posts in the thread. */
  lemma PostsOfCount(posts: map<int, Post>, threadId: int, hi: int)
    requires forall k :: k in posts ==> 1 <= k < hi
    ensures |PostsOf(posts, threadId, hi)| == |set k | k in posts && posts[k].threadId == threadId|
  {
    var keep := (p: Post) => p.threadId == threadId;
    Tables.AscendingCount(posts, keep, hi);
    assert Tables.Matching(posts, keep, hi) == set k | k in posts && posts[k].threadId == threadId;
  }

  /** Two lists that are permutations of each other have the same length and members. */
  lemma SameElements<T>(xs: seq<T>, ys: seq<T>)
    requires multiset(xs) == multiset(ys)
    ensures |xs| == |ys|
    ensures forall x :: x in xs <==> x in ys
  {
    assert |xs| == |multiset(xs)|;
    forall x ensures x in xs <==> x in ys {
      assert x in xs <==> x in multiset(xs);
      assert x in ys <==> x in multiset(ys);
    }
  }

  /** A category's subforums, ordered by name, are exactly its subforums. */
  lemma SubforumsByNameExact(subforums: map<int, Subforum>, categoryId: int, hi: int)
    requires forall k :: k in subforums ==> 1 <= k < hi && subforums[k].id == k
    ensures forall s :: s in SortByName(SubforumsOf(subforums, categoryId, hi)) <==>
      s.id in subforums && subforums[s.id] == s && s.categoryId == categoryId
    ensures |SortByName(SubforumsOf(subforums, categoryId, hi))| ==
      |set k | k in subforums && subforums[k].categoryId == categoryId|
  {
    var list := SubforumsOf(subforums, categoryId, hi);
    SubforumsOfExact(subforums, categoryId, hi);
    SubforumsOfCount(subforums, categoryId, hi);
    SameElements(list, SortByName(list));
  }

  /** A category's subforum list holds one entry per subforum of that category. */
  lemma SubforumsOfCount(subforums: map<int, Subforum>, categoryId: int, hi: int)
    requires forall k :: k in subforums ==> 1 <= k < hi
    ensures |SubforumsOf(subforums, categoryId, hi)| == |set k | k in subforums && subforums[k].categoryId == categoryId|
  {
    var keep := (s: Subforum) => s.categoryId == categoryId;
    Tables.AscendingCount(subforums, keep, hi);
    assert Tables.Matching(subforums, keep, hi) == set k | k in subforums && subforums[k].categoryId == categoryId;
  }

  /** Search lists hold exactly the matching threads and posts. */
  lemma SearchListsExact(threads: map<int, Thread>, posts: map<int, Post>, q: string, like: Matcher, hi: int, hiPost: int)
    requires forall k :: k in threads ==> 1 <= k < hi && threads[k].id == k
    requires forall k :: k in posts ==> 1 <= k < hiPost && posts[k].id == k
    ensures forall t :: t in ThreadsTitled(threads, q, like, hi) <==> t.id in threads && threads[t.id] == t && like(t.title, q)
    ensures forall p :: p in PostsContaining(posts, q, like, hiPost) <==> p.id in posts && posts[p.id] == p && like(p.content, q)
  {
    var tkeep := (t: Thread) => like(t.title, q);
    var pkeep := (p: Post) => like(p.content, q);
    Tables.RowsExact(threads, tkeep, hi, (t: Thread) => t.id);
    Tables.RowsExact(posts, pkeep, hiPost, (p: Post) => p.id);
    Tables.ReverseSameElements(Tables.Rows(threads, Tables.Ascending(threads, tkeep, hi)));
    Tables.ReverseSameElements(Tables.Rows(posts, Tables.Ascending(posts, pkeep, hiPost)));
  }

  /** Both search lists are newest first. */
  lemma SearchListsNewestFirst(threads: map<int, Thread>, posts: map<int, Post>, q: string, like: Matcher, hi: int, hiPost: int)
    requires Tables.Chronological(threads, (t: Thread) => t.createdAt)
    requires Tables.Chronological(posts, (p: Post) => p.createdAt)
    ensures forall i, j :: 0 <= i < j < |ThreadsTitled(threads, q, like, hi)| ==>
      ThreadsTitled(threads, q, like, hi)[i].createdAt > ThreadsTitled(threads, q, like, hi)[j].createdAt
    ensures forall i, j :: 0 <= i < j < |PostsContaining(posts, q, like, hiPost)| ==>
      PostsContaining(posts, q, like, hiPost)[i].createdAt > PostsContaining(posts, q, like, hiPost)[j].createdAt
  {
    Tables.RowsChronological(threads, (t: Thread) => t.createdAt, Tables.Ascending(threads, (t: Thread) => like(t.title, q), hi));
    Tables.RowsChronological(posts, (p: Post) => p.createdAt, Tables.Ascending(posts, (p: Post) => like(p.content, q), hiPost));
  }
}
