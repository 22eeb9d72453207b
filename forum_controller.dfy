/**
 * The forum request handlers over four in-memory tables. Each handler takes
 * the requester explicitly (`req.user`), the route's validation result where
 * the handler consults it, and the request's parameters, and returns the
 * status and body it would send.
 */
module ForumController {
  import opened Wrappers
  import opened Entities
  import opened Http
  import opened ForumModel
  import opened Pagination
  import Tables
  import Strings

  /** A category with its `subforums` relation loaded. */
  datatype CategoryView = CategoryView(category: Category, subforums: seq<Subforum>)

  /** `{ ...subforum, threads, currentPage, totalPages, totalItems }` */
  datatype SubforumView = SubforumView(subforum: Subforum, threads: Page<Thread>)

  /** `{ ...thread, posts, currentPage, totalPages, totalItems }` */
  datatype ThreadView = ThreadView(thread: Thread, posts: Page<Post>)

  /** Two independently paged lists under one envelope. */
  datatype SearchResult = SearchResult(threads: seq<Thread>, posts: seq<Post>, currentPage: int, totalPages: nat, totalItems: nat)

  /** Attach each category's subforums: entry `i` is category `i` with
      exactly the stored subforums that belong to it. */
  function WithSubforums(cs: seq<Category>, subforums: map<int, Subforum>, hi: int): (vs: seq<CategoryView>)
    requires forall k :: k in subforums ==> 1 <= k < hi && subforums[k].id == k
    ensures |vs| == |cs|
    ensures forall i :: 0 <= i < |cs| ==> vs[i].category == cs[i]
    ensures forall i, s :: 0 <= i < |cs| ==>
      (s in vs[i].subforums <==> s.id in subforums && subforums[s.id] == s && s.categoryId == cs[i].id)
  {
    SubforumsOfExactAll(subforums, hi);
    seq(|cs|, i requires 0 <= i < |cs| => CategoryView(cs[i], SubforumsOf(subforums, cs[i].id, hi)))
  }

  /** The search envelope: each list paged with the same skip and limit,
      totals taken from the sum of both match counts. */
  function SearchPage(ts: seq<Thread>, ps: seq<Post>, page: int, limit: int): SearchResult
    requires page >= 1 && limit >= 1
  {
    SearchResult(Window(ts, page, limit), Window(ps, page, limit), page,
                 TotalPages(|ts| + |ps|, limit), |ts| + |ps|)
  }

  /** Page `p` of a search shows something exactly when `p` is within the
      longer list's own page count, which can be fewer than `totalPages`. */
  lemma SearchPageNonEmptyIff(ts: seq<Thread>, ps: seq<Post>, page: int, limit: int)
    requires page >= 1 && limit >= 1
    ensures var r := SearchPage(ts, ps, page, limit);
      (|r.threads| + |r.posts| > 0) <==> page <= TotalPages(Max(|ts|, |ps|), limit)
  {
    var skip := Skip(page, limit);
    assert |Window(ts, page, limit)| > 0 <==> skip < |ts|;
    assert |Window(ps, page, limit)| > 0 <==> skip < |ps|;
    PageWithinIff(Max(|ts|, |ps|), page, limit);
  }

  /** Ten matching threads and ten matching posts with limit 10 report two
      pages, yet page 2 is empty in both lists. */
  lemma SearchLastPageCanBeEmpty(ts: seq<Thread>, ps: seq<Post>)
    requires |ts| == 10 && |ps| == 10
    ensures SearchPage(ts, ps, 2, 10).totalPages == 2
    ensures SearchPage(ts, ps, 2, 10).threads == [] && SearchPage(ts, ps, 2, 10).posts == []
  {
    assert TotalPages(20, 10) == 2;
  }

  class ForumStore {
    var categories: map<int, Category>
    var subforums: map<int, Subforum>
    var threads: map<int, Thread>
    var posts: map<int, Post>
    var nextCategoryId: int
    var nextSubforumId: int
    var nextThreadId: int
    var nextPostId: int
    /** The database clock behind `createdAt`, as a sequence number. */
    var clock: int

    ghost predicate Valid()
      reads this
    {
      && CategoriesWellFormed(categories, nextCategoryId)
      && SubforumsWellFormed(subforums, nextSubforumId, categories)
      && ThreadsWellFormed(threads, nextThreadId, subforums, clock)
      && PostsWellFormed(posts, nextPostId, threads, clock)
      && nextCategoryId >= 1 && nextSubforumId >= 1 && nextThreadId >= 1 && nextPostId >= 1
    }

    constructor ()
      ensures Valid()
      ensures categories == map[] && subforums == map[] && threads == map[] && posts == map[]
    {
      categories, subforums, threads, posts := map[], map[], map[], map[];
      nextCategoryId, nextSubforumId, nextThreadId, nextPostId := 1, 1, 1, 1;
      clock := 0;
    }

    // -------------------------------------------------------------------
    // Reads

    /** GET /categories: a page of categories, each with its subforums. */
    method ListCategories(query: ListQuery) returns (r: Response<Page<CategoryView>>)
      requires Valid() && Admissible(query)
      ensures r.Done? && r.status == 200
      ensures r.body == Paginate(WithSubforums(AllCategories(categories, nextCategoryId), subforums, nextSubforumId),
                                 PageNumber(query), PageSize(query))
      ensures r.body.totalItems == |categories|
      ensures forall v :: v in r.body.items ==>
        && v.category.id in categories && categories[v.category.id] == v.category
        && forall s :: s in v.subforums <==>
             s.id in subforums && subforums[s.id] == s && s.categoryId == v.category.id
    {
      AdmissibleBounds(query);
      var cs := AllCategories(categories, nextCategoryId);
      AllCategoriesExact(categories, nextCategoryId);
      var views := WithSubforums(cs, subforums, nextSubforumId);
      forall v | v in views
        ensures v.category in cs
        ensures forall s :: s in v.subforums <==> s.id in subforums && subforums[s.id] == s && s.categoryId == v.category.id
      {
        var i :| 0 <= i < |views| && views[i] == v;
      }
      var page := Paginate(views, PageNumber(query), PageSize(query));
      WindowWithin(views, PageNumber(query), PageSize(query));
      r := Done(200, page);
    }

    /** GET /categories/:id */
    method GetCategory(id: int) returns (r: Response<CategoryView>)
      requires Valid()
      ensures id !in categories ==> r == Error(404, "Category not found")
      ensures id in categories ==> r.Done? && r.status == 200 && r.body.category == categories[id]
      ensures id in categories ==>
        forall s :: s in r.body.subforums <==> s.id in subforums && subforums[s.id] == s && s.categoryId == id
    {
      if id !in categories {
        return Error(404, "Category not found");
      }
      SubforumsOfExact(subforums, id, nextSubforumId);
      r := Done(200, CategoryView(categories[id], SubforumsOf(subforums, id, nextSubforumId)));
    }

    /** GET /subforums/:id: the subforum with a page of its threads, newest first. */
    method GetSubforum(id: int, query: ListQuery) returns (r: Response<SubforumView>)
      requires Valid() && Admissible(query)
      ensures id !in subforums ==> r == Error(404, "Subforum not found")
      ensures id in subforums ==> r.Done? && r.status == 200 && r.body.subforum == subforums[id]
      ensures id in subforums ==>
        r.body.threads == Paginate(ThreadsOf(threads, id, nextThreadId), PageNumber(query), PageSize(query))
      ensures id in subforums ==>
        r.body.threads.totalItems == |set k | k in threads && threads[k].subforumId == id|
      ensures id in subforums ==> forall t :: t in r.body.threads.items ==>
        t.subforumId == id && t.id in threads && threads[t.id] == t
      ensures id in subforums ==> forall i, j :: 0 <= i < j < |r.body.threads.items| ==>
        r.body.threads.items[i].createdAt > r.body.threads.items[j].createdAt
    {
      if id !in subforums {
        return Error(404, "Subforum not found");
      }
      AdmissibleBounds(query);
      var all := ThreadsOf(threads, id, nextThreadId);
      ThreadsOfExact(threads, id, nextThreadId);
      ThreadsOfNewestFirst(threads, id, nextThreadId);
      ThreadsOfCount(threads, id, nextThreadId);
      WindowWithin(all, PageNumber(query), PageSize(query));
      WindowOrdered(all, PageNumber(query), PageSize(query), (a: Thread, b: Thread) => a.createdAt > b.createdAt);
      r := Done(200, SubforumView(subforums[id], Paginate(all, PageNumber(query), PageSize(query))));
    }

    /** GET /subforums/category/:categoryId: a page of the category's subforums by name. */
    method GetSubforumsByCategory(categoryId: int, query: ListQuery) returns (r: Response<Page<Subforum>>)
      requires Valid() && Admissible(query)
      ensures categoryId !in categories ==> r == Error(404, "Category not found")
      ensures categoryId in categories ==> r.Done? && r.status == 200
      ensures categoryId in categories ==>
        r.body == Paginate(SortByName(SubforumsOf(subforums, categoryId, nextSubforumId)), PageNumber(query), PageSize(query))
      ensures categoryId in categories ==>
        r.body.totalItems == |set k | k in subforums && subforums[k].categoryId == categoryId|
      ensures categoryId in categories ==> NameSorted(r.body.items)
      ensures categoryId in categories ==> forall s :: s in r.body.items ==>
        s.categoryId == categoryId && s.id in subforums && subforums[s.id] == s
    {
      if categoryId !in categories {
        return Error(404, "Category not found");
      }
      AdmissibleBounds(query);
      var all := SortByName(SubforumsOf(subforums, categoryId, nextSubforumId));
      SubforumsByNameExact(subforums, categoryId, nextSubforumId);
      WindowWithin(all, PageNumber(query), PageSize(query));
      WindowOrdered(all, PageNumber(query), PageSize(query), (a: Subforum, b: Subforum) => Strings.LexLessEq(a.name, b.name));
      r := Done(200, Paginate(all, PageNumber(query), PageSize(query)));
    }

    /** GET /threads/:id: the thread with a page of its posts, oldest first. */
    method GetThread(id: int, query: ListQuery) returns (r: Response<ThreadView>)
      requires Valid() && Admissible(query)
      ensures id !in threads ==> r == Error(404, "Thread not found")
      ensures id in threads ==> r.Done? && r.status == 200 && r.body.thread == threads[id]
      ensures id in threads ==>
        r.body.posts == Paginate(PostsOf(posts, id, nextPostId), PageNumber(query), PageSize(query))
      ensures id in threads ==>
        r.body.posts.totalItems == |set k | k in posts && posts[k].threadId == id|
      ensures id in threads ==> forall p :: p in r.body.posts.items ==>
        p.threadId == id && p.id in posts && posts[p.id] == p
      ensures id in threads ==> forall i, j :: 0 <= i < j < |r.body.posts.items| ==>
        r.body.posts.items[i].createdAt < r.body.posts.items[j].createdAt
    {
      if id !in threads {
        return Error(404, "Thread not found");
      }
      AdmissibleBounds(query);
      var all := PostsOf(posts, id, nextPostId);
      PostsOfExact(posts, id, nextPostId);
      PostsOfOldestFirst(posts, id, nextPostId);
      PostsOfCount(posts, id, nextPostId);
      WindowWithin(all, PageNumber(query), PageSize(query));
      WindowOrdered(all, PageNumber(query), PageSize(query), (a: Post, b: Post) => a.createdAt < b.createdAt);
      r := Done(200, ThreadView(threads[id], Paginate(all, PageNumber(query), PageSize(query))));
    }

    /** GET /search?q=: matching threads (by title) and posts (by content), each newest first. */
    method SearchForum(q: string, query: ListQuery, like: Matcher) returns (r: Response<SearchResult>)
      requires Valid() && Admissible(query)
      ensures r.Done? && r.status == 200
      ensures r.body == SearchPage(ThreadsTitled(threads, q, like, nextThreadId),
                                   PostsContaining(posts, q, like, nextPostId), PageNumber(query), PageSize(query))
      ensures forall t :: t in r.body.threads ==> like(t.title, q) && t.id in threads && threads[t.id] == t
      ensures forall p :: p in r.body.posts ==> like(p.content, q) && p.id in posts && posts[p.id] == p
      ensures forall i, j :: 0 <= i < j < |r.body.threads| ==> r.body.threads[i].createdAt > r.body.threads[j].createdAt
      ensures forall i, j :: 0 <= i < j < |r.body.posts| ==> r.body.posts[i].createdAt > r.body.posts[j].createdAt
    {
      AdmissibleBounds(query);
      var page, limit := PageNumber(query), PageSize(query);
      var ts := ThreadsTitled(threads, q, like, nextThreadId);
      var ps := PostsContaining(posts, q, like, nextPostId);
      SearchListsExact(threads, posts, q, like, nextThreadId, nextPostId);
      SearchListsNewestFirst(threads, posts, q, like, nextThreadId, nextPostId);
      WindowWithin(ts, page, limit);
      WindowWithin(ps, page, limit);
      WindowOrdered(ts, page, limit, (a: Thread, b: Thread) => a.createdAt > b.createdAt);
      WindowOrdered(ps, page, limit, (a: Post, b: Post) => a.createdAt > b.createdAt);
      r := Done(200, SearchPage(ts, ps, page, limit));
    }

    // -------------------------------------------------------------------
    // Writes

    /** createCategory: 400 on validation errors, then 403 unless an admin asks. */
    method CreateCategory(errors: seq<FieldError>, requester: Option<User>, name: string, description: string)
      returns (r: Response<Category>)
      requires Valid()
      modifies this
      ensures Valid()
      ensures errors != [] ==> r == Invalid(errors) && unchanged(this)
      ensures errors == [] && !IsAdmin(requester) ==>
        r == Error(403, "Only admins can create categories") && unchanged(this)
      ensures errors == [] && IsAdmin(requester) ==>
        var c := Category(old(nextCategoryId), name, description);
        && r == Done(201, c)
        && c.id !in old(categories)
        && categories == old(categories)[c.id := c]
        && nextCategoryId == old(nextCategoryId) + 1
        && subforums == old(subforums) && threads == old(threads) && posts == old(posts)
        && nextSubforumId == old(nextSubforumId) && nextThreadId == old(nextThreadId)
        && nextPostId == old(nextPostId) && clock == old(clock)
    {
      if errors != [] {
        return Invalid(errors);
      }
      if !IsAdmin(requester) {
        return Error(403, "Only admins can create categories");
      }
      var c := Category(nextCategoryId, name, description);
      categories := categories[c.id := c];
      nextCategoryId := nextCategoryId + 1;
      r := Done(201, c);
    }

    /** createSubforum: 400, then 403 unless admin, then 404 without the category. */
    method CreateSubforum(errors: seq<FieldError>, requester: Option<User>, name: string, description: string, categoryId: int)
      returns (r: Response<Subforum>)
      requires Valid()
      modifies this
      ensures Valid()
      ensures errors != [] ==> r == Invalid(errors) && unchanged(this)
      ensures errors == [] && !IsAdmin(requester) ==>
        r == Error(403, "Only admins can create subforums") && unchanged(this)
      ensures errors == [] && IsAdmin(requester) && categoryId !in old(categories) ==>
        r == Error(404, "Category not found") && unchanged(this)
      ensures errors == [] && IsAdmin(requester) && categoryId in old(categories) ==>
        var s := Subforum(old(nextSubforumId), name, description, categoryId);
        && r == Done(201, s)
        && s.id !in old(subforums)
        && subforums == old(subforums)[s.id := s]
        && nextSubforumId == old(nextSubforumId) + 1
        && categories == old(categories) && threads == old(threads) && posts == old(posts)
        && nextCategoryId == old(nextCategoryId) && nextThreadId == old(nextThreadId)
        && nextPostId == old(nextPostId) && clock == old(clock)
    {
      if errors != [] {
        return Invalid(errors);
      }
      if !IsAdmin(requester) {
        return Error(403, "Only admins can create subforums");
      }
      if categoryId !in categories {
        return Error(404, "Category not found");
      }
      var s := Subforum(nextSubforumId, name, description, categoryId);
      subforums := subforums[s.id := s];
      nextSubforumId := nextSubforumId + 1;
      r := Done(201, s);
    }

    /** createThread: saves the thread, then its first post with the same content and author. */
    method CreateThread(errors: seq<FieldError>, requester: Option<User>, title: string, content: string, subforumId: int)
      returns (r: Response<Thread>)
      requires Valid()
      modifies this
      ensures Valid()
      ensures errors != [] ==> r == Invalid(errors) && unchanged(this)
      ensures errors == [] && subforumId !in old(subforums) ==>
        r == Error(404, "Subforum not found") && unchanged(this)
      ensures errors == [] && subforumId in old(subforums) ==>
        var t := Thread(old(nextThreadId), title, subforumId, AuthorOf(requester), old(clock));
        var p := Post(old(nextPostId), content, t.id, AuthorOf(requester), old(clock) + 1);
        && r == Done(201, t)
        && t.id !in old(threads) && p.id !in old(posts)
        && threads == old(threads)[t.id := t]
        && posts == old(posts)[p.id := p]
        && nextThreadId == old(nextThreadId) + 1 && nextPostId == old(nextPostId) + 1
        && clock == old(clock) + 2
        && categories == old(categories) && subforums == old(subforums)
        && nextCategoryId == old(nextCategoryId) && nextSubforumId == old(nextSubforumId)
    {
      if errors != [] {
        return Invalid(errors);
      }
      if subforumId !in subforums {
        return Error(404, "Subforum not found");
      }
      var t := Thread(nextThreadId, title, subforumId, AuthorOf(requester), clock);
      threads := threads[t.id := t];
      nextThreadId := nextThreadId + 1;
      clock := clock + 1;
      var p := Post(nextPostId, content, t.id, AuthorOf(requester), clock);
      posts := posts[p.id := p];
      nextPostId := nextPostId + 1;
      clock := clock + 1;
      r := Done(201, t);
    }

    /** createPost: 400, then 404 without the thread, else one new post. */
    method CreatePost(errors: seq<FieldError>, requester: Option<User>, content: string, threadId: int)
      returns (r: Response<Post>)
      requires Valid()
      modifies this
      ensures Valid()
      ensures errors != [] ==> r == Invalid(errors) && unchanged(this)
      ensures errors == [] && threadId !in old(threads) ==>
        r == Error(404, "Thread not found") && unchanged(this)
      ensures errors == [] && threadId in old(threads) ==>
        var p := Post(old(nextPostId), content, threadId, AuthorOf(requester), old(clock));
        && r == Done(201, p)
        && p.id !in old(posts)
        && posts == old(posts)[p.id := p]
        && nextPostId == old(nextPostId) + 1 && clock == old(clock) + 1
        && categories == old(categories) && subforums == old(subforums) && threads == old(threads)
        && nextCategoryId == old(nextCategoryId) && nextSubforumId == old(nextSubforumId)
        && nextThreadId == old(nextThreadId)
    {
      if errors != [] {
        return Invalid(errors);
      }
      if threadId !in threads {
        return Error(404, "Thread not found");
      }
      var p := Post(nextPostId, content, threadId, AuthorOf(requester), clock);
      posts := posts[p.id := p];
      nextPostId := nextPostId + 1;
      clock := clock + 1;
      r := Done(201, p);
    }

    /** updatePost: 400, 404, then only the post's author may change its content.
        An authorless post makes `post.author.id` throw, which the handler turns into 500. */
    method UpdatePost(errors: seq<FieldError>, requester: Option<User>, id: int, content: string)
      returns (r: Response<Post>)
      requires Valid()
      modifies this
      ensures Valid()
      ensures errors != [] ==> r == Invalid(errors) && unchanged(this)
      ensures errors == [] && id !in old(posts) ==> r == Error(404, "Post not found") && unchanged(this)
      ensures errors == [] && id in old(posts) && old(posts)[id].authorId.None? ==>
        r == Error(500, "Internal server error") && unchanged(this)
      ensures (errors == [] && id in old(posts) && old(posts)[id].authorId.Some?
        && old(posts)[id].authorId != AuthorOf(requester)) ==>
        r == Error(403, "You are not authorized to update this post") && unchanged(this)
      ensures (errors == [] && id in old(posts) && old(posts)[id].authorId.Some?
        && old(posts)[id].authorId == AuthorOf(requester)) ==>
        && r == Done(200, old(posts)[id].(content := content))
        && posts == old(posts)[id := old(posts)[id].(content := content)]
        && categories == old(categories) && subforums == old(subforums) && threads == old(threads)
        && nextCategoryId == old(nextCategoryId) && nextSubforumId == old(nextSubforumId)
        && nextThreadId == old(nextThreadId) && nextPostId == old(nextPostId) && clock == old(clock)
    {
      if errors != [] {
        return Invalid(errors);
      }
      if id !in posts {
        return Error(404, "Post not found");
      }
      var post := posts[id];
      if post.authorId.None? {
        return Error(500, "Internal server error");
      }
      if post.authorId != AuthorOf(requester) {
        return Error(403, "You are not authorized to update this post");
      }
      post := post.(content := content);
      posts := posts[id := post];
      r := Done(200, post);
    }

    /** deletePost: 404, then only the post's author may remove it. */
    method DeletePost(requester: Option<User>, id: int) returns (r: Response<string>)
      requires Valid()
      modifies this
      ensures Valid()
      ensures id !in old(posts) ==> r == Error(404, "Post not found") && unchanged(this)
      ensures id in old(posts) && old(posts)[id].authorId.None? ==>
        r == Error(500, "Internal server error") && unchanged(this)
      ensures id in old(posts) && old(posts)[id].authorId.Some? && old(posts)[id].authorId != AuthorOf(requester) ==>
        r == Error(403, "You are not authorized to delete this post") && unchanged(this)
      ensures id in old(posts) && old(posts)[id].authorId.Some? && old(posts)[id].authorId == AuthorOf(requester) ==>
        && r == Done(200, "Post deleted successfully")
        && posts == old(posts) - {id}
        && categories == old(categories) && subforums == old(subforums) && threads == old(threads)
        && nextCategoryId == old(nextCategoryId) && nextSubforumId == old(nextSubforumId)
        && nextThreadId == old(nextThreadId) && nextPostId == old(nextPostId) && clock == old(clock)
    {
      if id !in posts {
        return Error(404, "Post not found");
      }
      var post := posts[id];
      if post.authorId.None? {
        return Error(500, "Internal server error");
      }
      if post.authorId != AuthorOf(requester) {
        return Error(403, "You are not authorized to delete this post");
      }
      posts := posts - {id};
      r := Done(200, "Post deleted successfully");
    }

    /** deleteThread: 404, then the author or an admin removes the thread's
        posts and then the thread itself. */
    method DeleteThread(requester: Option<User>, id: int) returns (r: Response<string>)
      requires Valid()
      modifies this
      ensures Valid()
      ensures id !in old(threads) ==> r == Error(404, "Thread not found") && unchanged(this)
      ensures id in old(threads) && old(threads)[id].authorId.None? ==>
        r == Error(500, "Internal server error") && unchanged(this)
      ensures (id in old(threads) && old(threads)[id].authorId.Some?
        && old(threads)[id].authorId != AuthorOf(requester) && !IsAdmin(requester)) ==>
        r == Error(403, "You are not authorized to delete this thread") && unchanged(this)
      ensures (id in old(threads) && old(threads)[id].authorId.Some?
        && (old(threads)[id].authorId == AuthorOf(requester) || IsAdmin(requester))) ==>
        && r == Done(200, "Thread and associated posts deleted successfully")
        && threads == old(threads) - {id}
        && (forall k :: k in posts <==> k in old(posts) && old(posts)[k].threadId != id)
        && (forall k :: k in posts ==> posts[k] == old(posts)[k])
        && categories == old(categories) && subforums == old(subforums)
        && nextCategoryId == old(nextCategoryId) && nextSubforumId == old(nextSubforumId)
        && nextThreadId == old(nextThreadId) && nextPostId == old(nextPostId) && clock == old(clock)
    {
      if id !in threads {
        return Error(404, "Thread not found");
      }
      var thread := threads[id];
      if thread.authorId.None? {
        return Error(500, "Internal server error");
      }
      if thread.authorId != AuthorOf(requester) && !IsAdmin(requester) {
        return Error(403, "You are not authorized to delete this thread");
      }
      posts := map k | k in posts && posts[k].threadId != id :: posts[k];
      threads := threads - {id};
      r := Done(200, "Thread and associated posts deleted successfully");
    }
  }
}
