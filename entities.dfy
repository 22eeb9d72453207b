/**
 * The persisted records: one datatype per table. Relations are kept as
 * foreign keys (`categoryId`, `subforumId`, `threadId`, `authorId`); the
 * database clock behind `createdAt` is a sequence number.
 */
module Entities {
  import opened Wrappers

  datatype User = User(id: int, username: string, email: string, passwordHash: string, isAdmin: bool)

  datatype Category = Category(id: int, name: string, description: string)

  datatype Subforum = Subforum(id: int, name: string, description: string, categoryId: int)

  /** `authorId` is `None` when the row was saved with `author: undefined`. */
  datatype Thread = Thread(id: int, title: string, subforumId: int, authorId: Option<int>, createdAt: int)

  datatype Post = Post(id: int, content: string, threadId: int, authorId: Option<int>, createdAt: int)

  /** `req.user?.isAdmin` */
  predicate IsAdmin(requester: Option<User>) {
    requester.Some? && requester.value.isAdmin
  }

  /** The author a newly created row gets: `author: req.user`. */
  function AuthorOf(requester: Option<User>): Option<int> {
    if requester.Some? then Some(requester.value.id) else None
  }
}
