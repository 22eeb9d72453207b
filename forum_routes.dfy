/**
 * The forum router: for each route its verb and path, whether
 * `authenticateToken` runs first, the validation chains and the
 * `validateRequest` guard, and the handler the request finally reaches.
 */
module ForumRoutes {
  import opened Wrappers
  import opened Http
  import opened Validation
  import JsNumbers
  import Pagination
  import Auth

  datatype Verb = Get | Post | Put | Delete

  /** The handlers `forumController` exports. */
  datatype Handler =
    | ListCategories | GetCategory | CreateCategory | CreateSubforum | GetSubforum
    | GetSubforumsByCategory | CreateThread | GetThread | CreatePost | UpdatePost
    | DeletePost | SearchForum | DeleteThread

  datatype Route = Route(verb: Verb, path: string, authenticated: bool, chains: seq<Chain>, handler: Handler)

  const PageChain: Chain := Chain(Query, "page", true, [Int(Some(1), None, "Page must be a positive integer")])
  const LimitChain: Chain := Chain(Query, "limit", true, [Int(Some(1), Some(100), "Limit must be between 1 and 100")])

  function IdChain(msg: string): Chain {
    Chain(Params, "id", false, [Int(None, None, msg)])
  }

  const ContentChain: Chain := Chain(Body, "content", false,
    [NotEmpty("Post content is required"), Length(1, Some(10000), "Post content must be between 1 and 10000 characters")])

  const SubforumChains: seq<Chain> := [
    Chain(Body, "name", false,
      [NotEmpty("Subforum name is required"), Length(3, Some(100), "Subforum name must be between 3 and 100 characters")]),
    Chain(Body, "description", false,
      [NotEmpty("Subforum description is required"), Length(0, Some(500), "Subforum description must not exceed 500 characters")]),
    Chain(Body, "categoryId", false, [Int(None, None, "Valid category ID is required")])
  ]

  const ThreadChains: seq<Chain> := [
    Chain(Body, "title", false,
      [NotEmpty("Thread title is required"), Length(3, Some(200), "Thread title must be between 3 and 200 characters")]),
    Chain(Body, "content", false,
      [NotEmpty("Thread content is required"), Length(10, Some(10000), "Thread content must be between 10 and 10000 characters")]),
    Chain(Body, "subforumId", false, [Int(None, None, "Valid subforum ID is required")])
  ]

  const PostChains: seq<Chain> := [ContentChain, Chain(Body, "threadId", false, [Int(None, None, "Valid thread ID is required")])]

  const SearchChains: seq<Chain> := [Chain(Query, "q", false, [NotEmpty("Search query is required")]), PageChain, LimitChain]

  /** The routes in the order they are registered. */
  const Routes: seq<Route> := [
    Route(Get, "/categories", false, [PageChain, LimitChain], ListCategories),
    Route(Get, "/categories/:id", false, [IdChain("Invalid category ID")], GetCategory),
    Route(Post, "/subforums", true, SubforumChains, CreateSubforum),
    Route(Get, "/subforums/:id", false, [IdChain("Invalid subforum ID"), PageChain, LimitChain], GetSubforum),
    Route(Post, "/threads", true, ThreadChains, CreateThread),
    Route(Get, "/threads/:id", false, [IdChain("Invalid thread ID"), PageChain, LimitChain], GetThread),
    Route(Delete, "/threads/:id", true, [IdChain("Invalid thread ID")], DeleteThread),
    Route(Post, "/posts", true, PostChains, CreatePost),
    Route(Put, "/posts/:id", true, [IdChain("Invalid post ID"), ContentChain], UpdatePost),
    Route(Delete, "/posts/:id", true, [IdChain("Invalid post ID")], DeletePost),
    Route(Get, "/search", false, SearchChains, SearchForum)
  ]

  /** How far a request gets along a route's middleware. */
  datatype Admission = Denied(status: int) | Failed(errors: seq<FieldError>) | Admitted(userId: Option<int>)

  /** Authentication (when the route has it), then the chains, then the guard. */
  function Admit(route: Route, header: Option<string>, verify: Auth.Verifier, input: Input, isEmail: EmailCheck): (a: Admission)
    ensures a.Denied? ==> route.authenticated
    ensures a.Admitted? ==> (a.userId.Some? <==> route.authenticated)
    ensures a.Admitted? && route.authenticated ==> Auth.Decide(header, verify) == Auth.Authenticated(a.userId.value)
  {
    var auth := if route.authenticated then Auth.Decide(header, verify) else Auth.Authenticated(0);
    if !auth.Authenticated? then Denied(auth.Status())
    else match Guard(Errors(route.chains, input, isEmail))
      case Rejected(errors) => Failed(errors)
      case Forwarded => Admitted(if route.authenticated then Some(auth.userId) else None)
  }

  /** The text of a field, with an absent field read as the empty text. */
  function Field(input: Input, location: Location, path: string): string {
    Lookup(input, location, path).GetOr("")
  }

  /** The page/limit query of a request, as the list handlers read it. */
  function ListQueryOf(input: Input): Pagination.ListQuery {
    Pagination.ListQuery(Lookup(input, Query, "page"), Lookup(input, Query, "limit"))
  }

  // ---------------------------------------------------------------------
  // Properties of the routing table

  /** A request reaches the handler exactly when authentication (if any) succeeds
      and no validator fails; authentication is decided first. */
  lemma AdmitIff(route: Route, header: Option<string>, verify: Auth.Verifier, input: Input, isEmail: EmailCheck)
    ensures route.authenticated && !Auth.Decide(header, verify).Authenticated? ==>
      Admit(route, header, verify, input, isEmail) == Denied(Auth.Decide(header, verify).Status())
    ensures Admit(route, header, verify, input, isEmail).Admitted? <==>
      (!route.authenticated || Auth.Decide(header, verify).Authenticated?)
      && forall c :: c in route.chains ==> ChainAccepts(c, input, isEmail)
    ensures Admit(route, header, verify, input, isEmail).Failed? ==>
      Admit(route, header, verify, input, isEmail).errors == Errors(route.chains, input, isEmail) != []
  {
    ErrorsEmptyIff(route.chains, input, isEmail);
  }

  /** A protected route answers 401 to a request without an Authorization
      header, however invalid its body. */
  lemma MissingTokenBeatsValidation(route: Route, verify: Auth.Verifier, input: Input, isEmail: EmailCheck)
    requires route in Routes && route.verb != Get
    ensures Admit(route, None, verify, input, isEmail) == Denied(401)
  {
    AllWritesAuthenticated();
  }

  /** Every route that changes data runs `authenticateToken`; every read is public. */
  lemma AllWritesAuthenticated()
    ensures forall r :: r in Routes ==> (r.authenticated <==> r.verb != Get)
  {
  }

  /** `createCategory` and `getSubforumsByCategory` are never reached: no route leads to them. */
  lemma UnroutedHandlers()
    ensures forall r :: r in Routes ==> r.handler != CreateCategory && r.handler != GetSubforumsByCategory
  {
    forall r | r in Routes ensures r.handler != CreateCategory && r.handler != GetSubforumsByCategory {
      var i :| 0 <= i < |Routes| && Routes[i] == r;
    }
  }

  /** The list rules hold exactly when the handler sees an admissible page and limit. */
  lemma ListRulesIff(input: Input, isEmail: EmailCheck)
    ensures Errors([PageChain, LimitChain], input, isEmail) == [] <==> Pagination.Admissible(ListQueryOf(input))
  {
    ErrorsOfTwo(PageChain, LimitChain, input, isEmail);
    OptionalRuleIff(Query, "page", PageChain.rules[0], input, isEmail);
    OptionalRuleIff(Query, "limit", LimitChain.rules[0], input, isEmail);
  }

  /** Any route carrying the page and limit chains hands its handler an admissible query. */
  lemma ListRoutesAdmissible(route: Route, header: Option<string>, verify: Auth.Verifier, input: Input, isEmail: EmailCheck)
    requires PageChain in route.chains && LimitChain in route.chains
    requires Admit(route, header, verify, input, isEmail).Admitted?
    ensures Pagination.Admissible(ListQueryOf(input))
  {
    AdmitIff(route, header, verify, input, isEmail);
    OptionalRuleIff(Query, "page", PageChain.rules[0], input, isEmail);
    OptionalRuleIff(Query, "limit", LimitChain.rules[0], input, isEmail);
    assert ChainAccepts(PageChain, input, isEmail) && ChainAccepts(LimitChain, input, isEmail);
    assert [PageChain.rules[0]][1..] == [];
  }

  /** An `:id` chain passes exactly for integer text, which `parseInt` then reads back. */
  lemma IdRuleIff(msg: string, input: Input, isEmail: EmailCheck)
    ensures Errors([IdChain(msg)], input, isEmail) == [] <==> JsNumbers.IsInt(Field(input, Params, "id"), None, None)
    ensures Errors([IdChain(msg)], input, isEmail) == [] ==>
      JsNumbers.ParseInt(Field(input, Params, "id")) == Some(JsNumbers.IntValue(Field(input, Params, "id")))
  {
    ErrorsOfTwo(IdChain(msg), IdChain(msg), input, isEmail);
    assert [IdChain(msg)][1..] == [];
    OneRuleIff(Params, "id", IdChain(msg).rules[0], input, isEmail);
  }

  /** A thread needs a 3..200 character title, 10..10000 characters of content and an integer subforum id. */
  lemma ThreadRulesIff(input: Input, isEmail: EmailCheck)
    ensures Errors(ThreadChains, input, isEmail) == [] <==>
      && 3 <= |Field(input, Body, "title")| <= 200
      && 10 <= |Field(input, Body, "content")| <= 10000
      && JsNumbers.IsInt(Field(input, Body, "subforumId"), None, None)
  {
    var c := ThreadChains;
    ErrorsOfThree(c[0], c[1], c[2], input, isEmail);
    TwoRulesIff(Body, "title", c[0].rules[0], c[0].rules[1], input, isEmail);
    TwoRulesIff(Body, "content", c[1].rules[0], c[1].rules[1], input, isEmail);
    OneRuleIff(Body, "subforumId", c[2].rules[0], input, isEmail);
  }

  /** An empty (or absent) title fails both title validators: 400 with both messages. */
  lemma EmptyTitleRejected(route: Route, header: Option<string>, verify: Auth.Verifier, input: Input, isEmail: EmailCheck)
    requires route.chains == ThreadChains && Field(input, Body, "title") == ""
    requires Auth.Decide(header, verify).Authenticated?
    ensures Admit(route, header, verify, input, isEmail).Failed?
    ensures FieldError(Body, "title", "Thread title is required") in Admit(route, header, verify, input, isEmail).errors
    ensures FieldError(Body, "title", "Thread title must be between 3 and 200 characters")
      in Admit(route, header, verify, input, isEmail).errors
  {
    var rules := ThreadChains[0].rules;
    ErrorsReport(ThreadChains, input, isEmail, 0, rules[0]);
    ErrorsReport(ThreadChains, input, isEmail, 0, rules[1]);
  }

  /** A new post needs 1..10000 characters of content and an integer thread id. */
  lemma PostRulesIff(input: Input, isEmail: EmailCheck)
    ensures Errors(PostChains, input, isEmail) == [] <==>
      && 1 <= |Field(input, Body, "content")| <= 10000
      && JsNumbers.IsInt(Field(input, Body, "threadId"), None, None)
  {
    var c := PostChains;
    ErrorsOfTwo(c[0], c[1], input, isEmail);
    TwoRulesIff(Body, "content", c[0].rules[0], c[0].rules[1], input, isEmail);
    OneRuleIff(Body, "threadId", c[1].rules[0], input, isEmail);
  }

  /** An edit needs an integer post id and 1..10000 characters of content. */
  lemma UpdatePostRulesIff(input: Input, isEmail: EmailCheck)
    ensures Errors([IdChain("Invalid post ID"), ContentChain], input, isEmail) == [] <==>
      && JsNumbers.IsInt(Field(input, Params, "id"), None, None)
      && 1 <= |Field(input, Body, "content")| <= 10000
  {
    ErrorsOfTwo(IdChain("Invalid post ID"), ContentChain, input, isEmail);
    OneRuleIff(Params, "id", IdChain("Invalid post ID").rules[0], input, isEmail);
    TwoRulesIff(Body, "content", ContentChain.rules[0], ContentChain.rules[1], input, isEmail);
  }

  /** A subforum needs a 3..100 character name, a 1..500 character description and an integer category id. */
  lemma SubforumRulesIff(input: Input, isEmail: EmailCheck)
    ensures Errors(SubforumChains, input, isEmail) == [] <==>
      && 3 <= |Field(input, Body, "name")| <= 100
      && 1 <= |Field(input, Body, "description")| <= 500
      && JsNumbers.IsInt(Field(input, Body, "categoryId"), None, None)
  {
    var c := SubforumChains;
    ErrorsOfThree(c[0], c[1], c[2], input, isEmail);
    TwoRulesIff(Body, "name", c[0].rules[0], c[0].rules[1], input, isEmail);
    TwoRulesIff(Body, "description", c[1].rules[0], c[1].rules[1], input, isEmail);
    OneRuleIff(Body, "categoryId", c[2].rules[0], input, isEmail);
  }

  /** A search needs a non-empty `q` and an admissible page and limit. */
  lemma SearchRulesIff(input: Input, isEmail: EmailCheck)
    ensures Errors(SearchChains, input, isEmail) == [] <==>
      Field(input, Query, "q") != "" && Pagination.Admissible(ListQueryOf(input))
  {
    var c := SearchChains;
    ErrorsOfThree(c[0], c[1], c[2], input, isEmail);
    OneRuleIff(Query, "q", c[0].rules[0], input, isEmail);
    ListRulesIff(input, isEmail);
    ErrorsOfTwo(PageChain, LimitChain, input, isEmail);
  }
}
