/**
 * The REST handlers of the server as transitions of one store holding the
 * three tables. Each handler is one atomic step: it either answers with an
 * error and leaves every table as it was, or performs exactly the INSERT,
 * UPDATE or DELETE its SQL statement describes.
 *
 * uuids come from `nextId`, a supply of fresh ids; the same counter stamps
 * `created_at`, so later rows carry larger stamps. Request bodies are given
 * field by field, `None` standing for a field that is absent or null.
 */
module Server {
  import opened Wrappers
  import opened Tables
  import opened Auth

  // ---------------------------------------------------------------- responses

  /** The JSON body of a response. */
  datatype Body =
    | UserBody(id: Id, username: string)                        // `{ user: { id, username } }`
    | ClaimsBody(claims: Claims)                                // `{ user: req.user }`
    | BookList(rows: seq<BookRow>)                              // `SELECT *` rows
    | BookCreated(id: Id, title: string, kind: string)          // `{ id, title, type }`
    | BookDetail(row: BookRow, entries: Option<seq<EntryRow>>)  // the row, with `entries` for a profile
    | EntryCreated(id: Id, bookId: Id, kind: string, content: string)
    | Message(text: string)                                     // `{ message }`
    | Error(message: string)                                    // `{ error }`
    | InternalError                                             // an exception the handler does not catch

  /** What the response does to the `token` cookie. */
  datatype CookieChange = Keep | SetToken(token: Token) | ClearToken

  datatype Response = Response(status: int, body: Body, cookie: CookieChange)

  function Fail(status: int, message: string): Response {
    Response(status, Error(message), Keep)
  }

  /** A statement the store refused (NOT NULL, CHECK or FOREIGN KEY): Express answers 500. */
  const Internal: Response := Response(500, InternalError, Keep)

  /** `!field` in the handlers: absent, null, or the empty string. */
  predicate Missing(field: Option<string>) {
    field.None? || field.value == []
  }

  // ---------------------------------------------------------------- tenancy

  /** The books that belong to someone other than `caller`. */
  function Foreign(books: map<Id, Book>, caller: Id): (r: map<Id, Book>)
    ensures forall b :: b in r <==> b in books && books[b].userId != caller
    ensures forall b :: b in r ==> r[b] == books[b]
  {
    map b | b in books && books[b].userId != caller :: books[b]
  }

  /** The entries filed under a book that belongs to someone other than `caller`. */
  function ForeignEntries(books: map<Id, Book>, entries: map<Id, Entry>, caller: Id): (r: map<Id, Entry>)
    ensures forall e :: e in r <==> e in entries && entries[e].bookId in Foreign(books, caller)
    ensures forall e :: e in r ==> r[e] == entries[e]
  {
    var others := Foreign(books, caller);
    map e | e in entries && entries[e].bookId in others :: entries[e]
  }

  /** Adding a book owned by the caller under a fresh id leaves every other tenant's books and entries as they were. */
  lemma {:induction false} InsertBookIsolated(books: map<Id, Book>, entries: map<Id, Entry>, caller: Id, id: Id, book: Book)
    requires id !in books && book.userId == caller
    ensures Foreign(books[id := book], caller) == Foreign(books, caller)
    ensures ForeignEntries(books[id := book], entries, caller) == ForeignEntries(books, entries, caller)
  {
    var after := books[id := book];
    assert Foreign(after, caller).Keys == Foreign(books, caller).Keys;
    assert Foreign(after, caller) == Foreign(books, caller);
    assert ForeignEntries(after, entries, caller).Keys == ForeignEntries(books, entries, caller).Keys;
  }

  /** Rewriting one of the caller's books, keeping its owner, leaves every other tenant's books and entries as they were. */
  lemma {:induction false} ReplaceBookIsolated(books: map<Id, Book>, entries: map<Id, Entry>, caller: Id, id: Id, book: Book)
    requires Owns(books, caller, id) && book.userId == caller
    ensures Foreign(books[id := book], caller) == Foreign(books, caller)
    ensures ForeignEntries(books[id := book], entries, caller) == ForeignEntries(books, entries, caller)
  {
    var after := books[id := book];
    assert Foreign(after, caller).Keys == Foreign(books, caller).Keys;
    assert Foreign(after, caller) == Foreign(books, caller);
    assert ForeignEntries(after, entries, caller).Keys == ForeignEntries(books, entries, caller).Keys;
  }

  /** Deleting one of the caller's books with its cascade leaves every other tenant's books and entries as they were. */
  lemma {:induction false} DeleteBookIsolated(books: map<Id, Book>, entries: map<Id, Entry>, caller: Id, id: Id)
    requires Owns(books, caller, id)
    ensures Foreign(books - {id}, caller) == Foreign(books, caller)
    ensures ForeignEntries(books - {id}, Cascade(entries, id), caller) == ForeignEntries(books, entries, caller)
  {
    var after := books - {id};
    assert Foreign(after, caller).Keys == Foreign(books, caller).Keys;
    assert Foreign(after, caller) == Foreign(books, caller);
    assert ForeignEntries(after, Cascade(entries, id), caller).Keys == ForeignEntries(books, entries, caller).Keys;
  }

  /** Adding an entry under one of the caller's books leaves every other tenant's entries as they were. */
  lemma {:induction false} InsertEntryIsolated(books: map<Id, Book>, entries: map<Id, Entry>, caller: Id, id: Id, entry: Entry)
    requires id !in entries && Owns(books, caller, entry.bookId)
    ensures ForeignEntries(books, entries[id := entry], caller) == ForeignEntries(books, entries, caller)
  {
    assert ForeignEntries(books, entries[id := entry], caller).Keys == ForeignEntries(books, entries, caller).Keys;
  }

  /** Removing an entry under one of the caller's books leaves every other tenant's entries as they were. */
  lemma {:induction false} DeleteEntryIsolated(books: map<Id, Book>, entries: map<Id, Entry>, caller: Id, id: Id)
    requires id in entries && Owns(books, caller, entries[id].bookId)
    ensures ForeignEntries(books, entries - {id}, caller) == ForeignEntries(books, entries, caller)
  {
    assert ForeignEntries(books, entries - {id}, caller).Keys == ForeignEntries(books, entries, caller).Keys;
  }

  // ---------------------------------------------------------------- schema

  /**
   * What the schema guarantees of the three tables, with freshness of the id
   * supply: every id and `created_at` stamp lies below `next`; usernames are
   * unique and non-empty (signup refuses `!username`); `books.user_id` and
   * `entries.book_id` refer to existing rows (FOREIGN KEY); no two books and no
   * two entries share a stamp.
   */
  ghost predicate Consistent(users: map<Id, User>, books: map<Id, Book>, entries: map<Id, Entry>, next: nat) {
    && (forall u :: u in users ==> u < next && users[u].createdAt < next)
    && (forall u :: u in users ==> users[u].username != [])
    && (forall b :: b in books ==> b < next && books[b].createdAt < next && books[b].userId in users)
    && (forall e :: e in entries ==> e < next && entries[e].createdAt < next && entries[e].bookId in books)
    && UniqueUsernames(users) && DistinctBookTimes(books) && DistinctEntryTimes(entries)
  }

  /** Signup's INSERT keeps the tables consistent when the username is new. */
  lemma {:induction false} InsertUserConsistent(users: map<Id, User>, books: map<Id, Book>, entries: map<Id, Entry>, next: nat, user: User)
    requires Consistent(users, books, entries, next)
    requires user.username != [] && user.createdAt == next
    requires forall u :: u in users ==> users[u].username != user.username
    ensures Consistent(users[next := user], books, entries, next + 1)
  {
    var after := users[next := user];
    forall a, b | a in after && b in after && after[a].username == after[b].username ensures a == b {
      if a != next && b != next {
        assert users[a].username == users[b].username;
      }
    }
  }

  /** A book INSERT keeps the tables consistent when its owner exists. */
  lemma {:induction false} InsertBookConsistent(users: map<Id, User>, books: map<Id, Book>, entries: map<Id, Entry>, next: nat, book: Book)
    requires Consistent(users, books, entries, next)
    requires book.userId in users && book.createdAt == next
    ensures Consistent(users, books[next := book], entries, next + 1)
  {
    var after := books[next := book];
    forall a, b | a in after && b in after && after[a].createdAt == after[b].createdAt ensures a == b {
      if a != next && b != next {
        assert books[a].createdAt == books[b].createdAt;
      }
    }
  }

  /** An UPDATE that keeps a book's owner and stamp keeps the tables consistent. */
  lemma {:induction false} ReplaceBookConsistent(users: map<Id, User>, books: map<Id, Book>, entries: map<Id, Entry>, next: nat, id: Id, book: Book)
    requires Consistent(users, books, entries, next)
    requires id in books && book.userId == books[id].userId && book.createdAt == books[id].createdAt
    ensures Consistent(users, books[id := book], entries, next)
  {
    var after := books[id := book];
    assert after.Keys == books.Keys;
    forall a, b | a in after && b in after && after[a].createdAt == after[b].createdAt ensures a == b {
      assert books[a].createdAt == books[b].createdAt;
    }
  }

  /** Deleting a book together with its cascade keeps the tables consistent. */
  lemma {:induction false} DeleteBookConsistent(users: map<Id, User>, books: map<Id, Book>, entries: map<Id, Entry>, next: nat, id: Id)
    requires Consistent(users, books, entries, next)
    ensures Consistent(users, books - {id}, Cascade(entries, id), next)
  {
    var after := Cascade(entries, id);
    forall e | e in after ensures after[e].bookId in books - {id} {
      assert after[e] == entries[e];
    }
  }

  /** An entry INSERT keeps the tables consistent when its book exists. */
  lemma {:induction false} InsertEntryConsistent(users: map<Id, User>, books: map<Id, Book>, entries: map<Id, Entry>, next: nat, entry: Entry)
    requires Consistent(users, books, entries, next)
    requires entry.bookId in books && entry.createdAt == next
    ensures Consistent(users, books, entries[next := entry], next + 1)
  {
    var after := entries[next := entry];
    forall a, b | a in after && b in after && after[a].createdAt == after[b].createdAt ensures a == b {
      if a != next && b != next {
        assert entries[a].createdAt == entries[b].createdAt;
      }
    }
  }

  /** Deleting an entry keeps the tables consistent. */
  lemma {:induction false} DeleteEntryConsistent(users: map<Id, User>, books: map<Id, Book>, entries: map<Id, Entry>, next: nat, id: Id)
    requires Consistent(users, books, entries, next)
    ensures Consistent(users, books, entries - {id}, next)
  {
  }

  // ---------------------------------------------------------------- routes

  /** The API routes, each with the body fields or path parameter its handler reads. */
  datatype Request =
    | PostSignup(username: Option<string>, password: Option<string>)
    | PostLogin(username: Option<string>, password: Option<string>)
    | PostLogout
    | GetMe
    | GetBooks
    | PostBook(title: Option<string>, kind: Option<string>)
    | GetBookById(id: Id)
    | PutBook(id: Id, title: Option<string>, content: Option<string>)
    | DeleteBookById(id: Id)
    | PostEntry(bookId: Option<Id>, kind: Option<string>, content: Option<string>)
    | DeleteEntryById(id: Id)

  /** The routes mounted behind `authenticateToken`. */
  predicate Protected(req: Request) {
    !(req.PostSignup? || req.PostLogin? || req.PostLogout?)
  }

  /** The routes whose handlers only run queries. */
  predicate ReadOnly(req: Request) {
    req.PostLogin? || req.PostLogout? || req.GetMe? || req.GetBooks? || req.GetBookById?
  }

  /**
   * What a writing route does for `caller`, from tables `users`, `books`,
   * `entries` and id supply `next` to `books'`, `entries'` and `next'`: the
   * answer it gives, when it succeeds, and exactly what it writes.
   */
  predicate RouteOutcome(caller: Id, req: Request, users: map<Id, User>, books: map<Id, Book>, entries: map<Id, Entry>, next: nat,
                         books': map<Id, Book>, entries': map<Id, Entry>, next': nat, r: Response)
  {
    match req
    case PostBook(title, kind) =>
      && (Missing(title) || Missing(kind) ==> r == Fail(400, "Title and type required"))
      && (r.status == 200 <==> !Missing(title) && !Missing(kind) && ParseBookType(kind.value).Some? && caller in users)
      && (!Missing(title) && !Missing(kind) && r.status != 200 ==> r == Internal)
      && (r.status == 200 ==>
            var t := ParseBookType(kind.value).value;
            && books' == books[next := Book(caller, title.value, t, if t == Spreadsheet then Some("[]") else None, next)]
            && entries' == entries && next' == next + 1
            && r == Response(200, BookCreated(next, title.value, kind.value), Keep))
    case PutBook(id, title, content) =>
      && (r.status == 200 <==> Owns(books, caller, id))
      && (r.status != 200 ==> r == Fail(404, "Book not found"))
      && (r.status == 200 ==>
            var b := books[id];
            && books' == books[id := b.(title := if title.Some? then title.value else b.title,
                                        content := if content.Some? then content else b.content)]
            && entries' == entries && next' == next
            && r == Response(200, Message("Updated"), Keep))
    case DeleteBookById(id) =>
      && (r.status == 200 <==> Owns(books, caller, id))
      && (r.status != 200 ==> r == Fail(404, "Book not found"))
      && (r.status == 200 ==>
            && books' == books - {id} && entries' == Cascade(entries, id) && next' == next
            && r == Response(200, Message("Deleted"), Keep))
    case PostEntry(bookId, kind, content) =>
      && (bookId.None? || !Owns(books, caller, bookId.value) ==> r == Fail(403, "Forbidden"))
      && (r.status == 200 <==>
            bookId.Some? && Owns(books, caller, bookId.value) && kind.Some? && ParseEntryType(kind.value).Some? && content.Some?)
      && (bookId.Some? && Owns(books, caller, bookId.value) && r.status != 200 ==> r == Internal)
      && (r.status == 200 ==>
            && entries' == entries[next := Entry(bookId.value, ParseEntryType(kind.value).value, content.value, next)]
            && books' == books && next' == next + 1
            && r == Response(200, EntryCreated(next, bookId.value, kind.value, content.value), Keep))
    case DeleteEntryById(id) =>
      && (r.status == 200 <==> id in entries && Owns(books, caller, entries[id].bookId))
      && (r.status != 200 ==> r == Fail(404, "Entry not found"))
      && (r.status == 200 ==>
            && entries' == entries - {id} && books' == books && next' == next
            && r == Response(200, Message("Deleted"), Keep))
    case _ => true
  }

  // ---------------------------------------------------------------- the store

  /** The database `app.db` behind the handlers, with the key tokens are signed with. */
  class Store {
    const key: string
    var users: map<Id, User>
    var books: map<Id, Book>
    var entries: map<Id, Entry>
    /** The next fresh id, and the next `created_at` stamp. */
    var nextId: nat

    /** The tables satisfy the schema, and the id supply is fresh. */
    ghost predicate Valid()
      reads this
    {
      Consistent(users, books, entries, nextId)
    }

    /** A fresh database; the key is `JWT_SECRET` or the development default. */
    constructor (env: Option<string>)
      ensures Valid()
      ensures key == SigningKey(env)
      ensures users == map[] && books == map[] && entries == map[] && nextId == 0
    {
      key := SigningKey(env);
      users, books, entries := map[], map[], map[];
      nextId := 0;
    }

    /** POST /api/auth/signup. */
    method Signup(username: Option<string>, password: Option<string>, now: nat) returns (r: Response)
      requires Valid()
      modifies this
      ensures Valid()
      ensures r.status != 200 ==> unchanged(this)
      ensures Missing(username) || Missing(password) ==> r == Fail(400, "Username and password required")
      ensures !Missing(username) && !Missing(password) && old(FindUser(users, username.value)).Some? ==>
                r == Fail(409, "Username already exists")
      ensures !Missing(username) && !Missing(password) && old(FindUser(users, username.value)).None? ==>
                var id := old(nextId);
                && users == old(users)[id := User(username.value, Hash(password.value, id), id)]
                && books == old(books) && entries == old(entries) && nextId == id + 1
                && r == Response(200, UserBody(id, username.value), SetToken(Sign(key, id, username.value, now)))
    {
      if Missing(username) || Missing(password) {
        return Fail(400, "Username and password required");
      }
      var name := username.value;
      if FindUser(users, name).Some? {
        return Fail(409, "Username already exists");
      }
      var id := nextId;
      InsertUserConsistent(users, books, entries, id, User(name, Hash(password.value, id), id));
      users := users[id := User(name, Hash(password.value, id), id)];
      nextId := nextId + 1;
      r := Response(200, UserBody(id, name), SetToken(Sign(key, id, name, now)));
    }

    /** POST /api/auth/login. */
    function Login(username: Option<string>, password: Option<string>, now: nat): (r: Response)
      requires Valid()
      reads this
      ensures r.status == 200 <==>
                username.Some? && password.Some? && FindUser(users, username.value).Some?
                && Verifies(password.value, users[FindUser(users, username.value).value].passwordHash)
      ensures r.status == 200 ==>
                var id := FindUser(users, username.value).value;
                && id in users && users[id].username == username.value
                && r == Response(200, UserBody(id, username.value), SetToken(Sign(key, id, username.value, now)))
      ensures username.None? || FindUser(users, username.value).None? ==> r == Fail(401, "Invalid credentials")
      ensures r.status != 200 ==> r == Fail(401, "Invalid credentials") || r == Internal
      ensures r == Internal <==> username.Some? && password.None? && FindUser(users, username.value).Some?
    {
      if username.None? then Fail(401, "Invalid credentials")
      else
        match FindUser(users, username.value)
        case None => Fail(401, "Invalid credentials")
        case Some(id) =>
          if password.None? then Internal
          else if !Verifies(password.value, users[id].passwordHash) then Fail(401, "Invalid credentials")
          else
            var user := users[id];
            Response(200, UserBody(id, user.username), SetToken(Sign(key, id, user.username, now)))
    }

    /** POST /api/auth/logout. */
    function Logout(): (r: Response)
      ensures r.status == 200 && r.cookie == ClearToken
    {
      Response(200, Message("Logged out"), ClearToken)
    }

    /** GET /api/auth/me, once authenticated: the token's claims, as they are, with no lookup in `users`. */
    function Me(claims: Claims): (r: Response)
      ensures r.status == 200 && r.body.ClaimsBody? && r.body.claims == claims
    {
      Response(200, ClaimsBody(claims), Keep)
    }

    /** GET /api/books: the caller's books, newest first. */
    function ListBooks(caller: Id): (r: Response)
      requires Valid()
      reads this
      ensures r.status == 200 && r.body.BookList?
      ensures forall row :: row in r.body.rows <==> row.id in books && row.book == books[row.id] && row.book.userId == caller
      ensures forall i, j :: 0 <= i < j < |r.body.rows| ==> r.body.rows[j].book.createdAt < r.body.rows[i].book.createdAt
    {
      Response(200, BookList(BooksOf(books, caller)), Keep)
    }

    /** POST /api/books. */
    method CreateBook(caller: Id, title: Option<string>, kind: Option<string>) returns (r: Response)
      requires Valid()
      modifies this
      ensures Valid()
      ensures r.status != 200 ==> unchanged(this)
      ensures Missing(title) || Missing(kind) ==> r == Fail(400, "Title and type required")
      ensures !Missing(title) && !Missing(kind) && (ParseBookType(kind.value).None? || caller !in old(users)) ==> r == Internal
      ensures r.status == 200 <==> !Missing(title) && !Missing(kind) && ParseBookType(kind.value).Some? && caller in old(users)
      ensures r.status == 200 ==>
                var id := old(nextId);
                var t := ParseBookType(kind.value).value;
                && books == old(books)[id := Book(caller, title.value, t, if t == Spreadsheet then Some("[]") else None, id)]
                && users == old(users) && entries == old(entries) && nextId == id + 1
                && r == Response(200, BookCreated(id, title.value, kind.value), Keep)
    {
      if Missing(title) || Missing(kind) {
        return Fail(400, "Title and type required");
      }
      var t := ParseBookType(kind.value);
      if t.None? || caller !in users {
        return Internal;
      }
      var id := nextId;
      var content := if t.value == Spreadsheet then Some("[]") else None;
      InsertBookConsistent(users, books, entries, id, Book(caller, title.value, t.value, content, id));
      books := books[id := Book(caller, title.value, t.value, content, id)];
      nextId := nextId + 1;
      r := Response(200, BookCreated(id, title.value, kind.value), Keep);
    }

    /** GET /api/books/:id: the caller's book, with its entries when it is a profile. */
    function GetBook(caller: Id, id: Id): (r: Response)
      requires Valid()
      reads this
      ensures !Owns(books, caller, id) <==> r == Fail(404, "Book not found")
      ensures Owns(books, caller, id) ==>
                && r.status == 200 && r.body.BookDetail? && r.body.row == BookRow(id, books[id])
                && (books[id].kind == Spreadsheet <==> r.body.entries.None?)
      ensures Owns(books, caller, id) && books[id].kind == Profile ==>
                && (forall row :: row in r.body.entries.value <==> row.id in entries && row.entry == entries[row.id] && row.entry.bookId == id)
                && (forall i, j :: 0 <= i < j < |r.body.entries.value| ==>
                      r.body.entries.value[i].entry.createdAt < r.body.entries.value[j].entry.createdAt)
    {
      if !Owns(books, caller, id) then Fail(404, "Book not found")
      else
        var book := books[id];
        var listed := if book.kind == Spreadsheet then None else Some(EntriesOf(entries, id));
        Response(200, BookDetail(BookRow(id, book), listed), Keep)
    }

    /** PUT /api/books/:id: `title = COALESCE(?, title), content = COALESCE(?, content)`. */
    method UpdateBook(caller: Id, id: Id, title: Option<string>, content: Option<string>) returns (r: Response)
      requires Valid()
      modifies this
      ensures Valid()
      ensures !old(Owns(books, caller, id)) ==> r == Fail(404, "Book not found") && unchanged(this)
      ensures old(Owns(books, caller, id)) ==>
                var b := old(books[id]);
                && r == Response(200, Message("Updated"), Keep)
                && books == old(books)[id := b.(title := if title.Some? then title.value else b.title,
                                                content := if content.Some? then content else b.content)]
                && users == old(users) && entries == old(entries) && nextId == old(nextId)
    {
      if !Owns(books, caller, id) {
        return Fail(404, "Book not found");
      }
      var b := books[id];
      var updated := b.(title := if title.Some? then title.value else b.title,
                        content := if content.Some? then content else b.content);
      ReplaceBookConsistent(users, books, entries, nextId, id, updated);
      books := books[id := updated];
      r := Response(200, Message("Updated"), Keep);
    }

    /** DELETE /api/books/:id, with `ON DELETE CASCADE` on the book's entries. */
    method DeleteBook(caller: Id, id: Id) returns (r: Response)
      requires Valid()
      modifies this
      ensures Valid()
      ensures !old(Owns(books, caller, id)) ==> r == Fail(404, "Book not found") && unchanged(this)
      ensures old(Owns(books, caller, id)) ==>
                && r == Response(200, Message("Deleted"), Keep)
                && books == old(books) - {id} && entries == Cascade(old(entries), id)
                && users == old(users) && nextId == old(nextId)
    {
      if !Owns(books, caller, id) {
        return Fail(404, "Book not found");
      }
      DeleteBookConsistent(users, books, entries, nextId, id);
      books := books - {id};
      entries := Cascade(entries, id);
      r := Response(200, Message("Deleted"), Keep);
    }

    /** POST /api/entries: the parent book must be the caller's (403 otherwise). */
    method CreateEntry(caller: Id, bookId: Option<Id>, kind: Option<string>, content: Option<string>) returns (r: Response)
      requires Valid()
      modifies this
      ensures Valid()
      ensures r.status != 200 ==> unchanged(this)
      ensures bookId.None? || !old(Owns(books, caller, bookId.value)) ==> r == Fail(403, "Forbidden")
      ensures bookId.Some? && old(Owns(books, caller, bookId.value)) && (kind.None? || ParseEntryType(kind.value).None? || content.None?) ==>
                r == Internal
      ensures r.status == 200 <==>
                bookId.Some? && old(Owns(books, caller, bookId.value)) && kind.Some? && ParseEntryType(kind.value).Some? && content.Some?
      ensures r.status == 200 ==>
                var id := old(nextId);
                && entries == old(entries)[id := Entry(bookId.value, ParseEntryType(kind.value).value, content.value, id)]
                && users == old(users) && books == old(books) && nextId == id + 1
                && r == Response(200, EntryCreated(id, bookId.value, kind.value, content.value), Keep)
    {
      if bookId.None? || !Owns(books, caller, bookId.value) {
        return Fail(403, "Forbidden");
      }
      if kind.None? || content.None? {
        return Internal;
      }
      var t := ParseEntryType(kind.value);
      if t.None? {
        return Internal;
      }
      var id := nextId;
      InsertEntryConsistent(users, books, entries, id, Entry(bookId.value, t.value, content.value, id));
      entries := entries[id := Entry(bookId.value, t.value, content.value, id)];
      nextId := nextId + 1;
      r := Response(200, EntryCreated(id, bookId.value, kind.value, content.value), Keep);
    }

    /** DELETE /api/entries/:id: only an entry filed under one of the caller's books. */
    method DeleteEntry(caller: Id, id: Id) returns (r: Response)
      requires Valid()
      modifies this
      ensures Valid()
      ensures !old(id in entries && Owns(books, caller, entries[id].bookId)) ==> r == Fail(404, "Entry not found") && unchanged(this)
      ensures old(id in entries && Owns(books, caller, entries[id].bookId)) ==>
                && r == Response(200, Message("Deleted"), Keep)
                && entries == old(entries) - {id}
                && users == old(users) && books == old(books) && nextId == old(nextId)
    {
      if !(id in entries && Owns(books, caller, entries[id].bookId)) {
        return Fail(404, "Entry not found");
      }
      DeleteEntryConsistent(users, books, entries, nextId, id);
      entries := entries - {id};
      r := Response(200, Message("Deleted"), Keep);
    }

    /**
     * A request on a protected route from the caller the token names: the handler
     * the route names runs, and whatever it does stays within the caller's own
     * books and their entries.
     */
    method Serve(claims: Claims, req: Request) returns (r: Response)
      requires Valid() && Protected(req)
      modifies this
      ensures Valid()
      ensures ReadOnly(req) || r.status != 200 ==> unchanged(this)
      ensures users == old(users)
      ensures RouteOutcome(claims.id, req, old(users), old(books), old(entries), old(nextId), books, entries, nextId, r)
      ensures Foreign(books, claims.id) == old(Foreign(books, claims.id))
      ensures ForeignEntries(books, entries, claims.id) == old(ForeignEntries(books, entries, claims.id))
      ensures req.GetMe? ==> r == Me(claims)
      ensures req.GetBooks? ==> r == old(ListBooks(claims.id))
      ensures req.GetBookById? ==> r == old(GetBook(claims.id, req.id))
    {
      var caller := claims.id;
      var books0, entries0, next0 := books, entries, nextId;
      match req {
        case GetMe => r := Me(claims);
        case GetBooks => r := ListBooks(caller);
        case GetBookById(id) => r := GetBook(caller, id);
        case PostBook(title, kind) =>
          r := CreateBook(caller, title, kind);
          if r.status == 200 {
            InsertBookIsolated(books0, entries0, caller, next0, books[next0]);
          }
        case PutBook(id, title, content) =>
          r := UpdateBook(caller, id, title, content);
          if r.status == 200 {
            ReplaceBookIsolated(books0, entries0, caller, id, books[id]);
          }
        case DeleteBookById(id) =>
          r := DeleteBook(caller, id);
          if r.status == 200 {
            DeleteBookIsolated(books0, entries0, caller, id);
          }
        case PostEntry(bookId, kind, content) =>
          r := CreateEntry(caller, bookId, kind, content);
          if r.status == 200 {
            InsertEntryIsolated(books0, entries0, caller, next0, entries[next0]);
          }
        case DeleteEntryById(id) =>
          r := DeleteEntry(caller, id);
          if r.status == 200 {
            DeleteEntryIsolated(books0, entries0, caller, id);
          }
      }
    }

    /**
     * One request as Express serves it: the protected routes pass through
     * `authenticateToken` first, and the caller is the `id` of the token's claims.
     */
    method Handle(req: Request, cookie: Option<Token>, now: nat) returns (r: Response)
      requires Valid()
      modifies this
      ensures Valid()
      ensures Protected(req) && Authenticate(cookie, key, now).Err? ==>
                && r == Fail(Authenticate(cookie, key, now).error.status, Authenticate(cookie, key, now).error.message)
                && unchanged(this)
      ensures r.status != 200 ==> unchanged(this)
      ensures !Protected(req) ==> books == old(books) && entries == old(entries)
      ensures req.PostSignup? && (Missing(req.username) || Missing(req.password)) ==>
                r == Fail(400, "Username and password required")
      ensures req.PostSignup? && !Missing(req.username) && !Missing(req.password) && old(FindUser(users, req.username.value)).Some? ==>
                r == Fail(409, "Username already exists")
      ensures req.PostSignup? ==>
                (r.status == 200 <==> !Missing(req.username) && !Missing(req.password) && old(FindUser(users, req.username.value)).None?)
      ensures req.PostSignup? && r.status == 200 ==>
                var id := old(nextId);
                && users == old(users)[id := User(req.username.value, Hash(req.password.value, id), id)] && nextId == id + 1
                && r == Response(200, UserBody(id, req.username.value), SetToken(Sign(key, id, req.username.value, now)))
      ensures req.PostLogin? || req.PostLogout? ==> unchanged(this)
      ensures req.PostLogin? ==> r == old(Login(req.username, req.password, now))
      ensures req.PostLogout? ==> r == Logout()
      ensures Protected(req) && Authenticate(cookie, key, now).Ok? ==>
                var claims := Authenticate(cookie, key, now).value;
                && (ReadOnly(req) ==> unchanged(this))
                && users == old(users)
                && RouteOutcome(claims.id, req, old(users), old(books), old(entries), old(nextId), books, entries, nextId, r)
                && Foreign(books, claims.id) == old(Foreign(books, claims.id))
                && ForeignEntries(books, entries, claims.id) == old(ForeignEntries(books, entries, claims.id))
                && (req.GetMe? ==> r == Me(claims))
                && (req.GetBooks? ==> r == old(ListBooks(claims.id)))
                && (req.GetBookById? ==> r == old(GetBook(claims.id, req.id)))
    {
      if !Protected(req) {
        match req {
          case PostSignup(username, password) => r := Signup(username, password, now);
          case PostLogin(username, password) => r := Login(username, password, now);
          case PostLogout => r := Logout();
        }
        return;
      }
      var auth := Authenticate(cookie, key, now);
      if auth.Err? {
        return Fail(auth.error.status, auth.error.message);
      }
      r := Serve(auth.value, req);
    }
  }
}
