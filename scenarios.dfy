/**
 * Whole conversations with a fresh server, each request answered by the
 * handler the route names, and what the client sees at the end.
 */
module Scenarios {
  import opened Wrappers
  import opened Tables
  import opened Auth
  import Grid
  import opened Server

  /** A listing that holds exactly one row, in increasing `created_at` order, is that one row. */
  lemma {:induction false} OnlyRow(rows: seq<EntryRow>, row: EntryRow)
    requires forall r :: r in rows <==> r == row
    requires forall i, j :: 0 <= i < j < |rows| ==> rows[i].entry.createdAt < rows[j].entry.createdAt
    ensures rows == [row]
  {
    assert row in rows;
    assert rows[0] in rows;
    var last := |rows| - 1;
    assert rows[last] in rows;
  }

  /**
   * The same for a listing of books, in decreasing `created_at` order. It is kept
   * apart from `OnlyRow` because the two listings hold different row types ordered
   * in opposite directions.
   */
  lemma {:induction false} OnlyBook(rows: seq<BookRow>, row: BookRow)
    requires forall r :: r in rows <==> r == row
    requires forall i, j :: 0 <= i < j < |rows| ==> rows[j].book.createdAt < rows[i].book.createdAt
    ensures rows == [row]
  {
    assert row in rows;
    assert rows[0] in rows;
    var last := |rows| - 1;
    assert rows[last] in rows;
  }

  /** A fresh server on the development key where `name` has just signed up with `password`. */
  method SignedUp(name: string, password: string, now: nat) returns (store: Store, signup: Response)
    requires name != [] && password != []
    ensures fresh(store) && store.Valid() && store.key == DevSecret
    ensures store.users == map[0 := User(name, Hash(password, 0), 0)]
    ensures store.books == map[] && store.entries == map[] && store.nextId == 1
    ensures signup == Response(200, UserBody(0, name), SetToken(Sign(DevSecret, 0, name, now)))
  {
    store := new Store(None);
    signup := store.Signup(Some(name), Some(password), now);
  }

  /** alice, signed in with the cookie her signup set, has created the profile `title`. */
  method ProfileCreated(title: string, now: nat) returns (store: Store)
    requires title != []
    ensures fresh(store) && store.Valid() && store.key == DevSecret
    ensures store.users == map[0 := User("alice", Hash("pw1", 0), 0)]
    ensures store.books == map[1 := Book(0, title, Profile, None, 1)]
    ensures store.entries == map[] && store.nextId == 2
  {
    var signup;
    store, signup := SignedUp("alice", "pw1", now);
    IssuedCookieAuthenticates(store.key, 0, "alice", now, now);
    var alice := Authenticate(Some(signup.cookie.token), store.key, now).value.id;
    assert ParseBookType("profile") == Some(Profile);
    var created := store.CreateBook(alice, Some(title), Some("profile"));
  }

  /** ... and has filed an entry of kind `kind` with text `content` under it. */
  method EntryFiled(title: string, kind: EntryType, content: string, now: nat) returns (store: Store)
    requires title != []
    ensures fresh(store) && store.Valid() && store.key == DevSecret
    ensures store.users == map[0 := User("alice", Hash("pw1", 0), 0)]
    ensures store.books == map[1 := Book(0, title, Profile, None, 1)]
    ensures store.entries == map[2 := Entry(1, kind, content, 2)] && store.nextId == 3
  {
    store := ProfileCreated(title, now);
    assert ParseEntryType(EntryTypeName(kind)) == Some(kind);
    var filed := store.CreateEntry(0, Some(1), Some(EntryTypeName(kind)), Some(content));
  }

  /**
   * For any username and password: logging in right after signing up, with the
   * same credentials, names the same user; a wrong password is refused, and so is
   * a second signup with the name, whatever its password. The signup cookie
   * identifies the user on `/me`.
   */
  method SignupThenLogin(name: string, password: string, wrong: string, other: string, now: nat)
    returns (signup: Response, me: Response, login: Response, wrongPassword: Response, again: Response)
    requires name != [] && password != [] && other != [] && KeyBytes(wrong) != KeyBytes(password)
    ensures signup.status == 200 && signup.body == UserBody(0, name)
    ensures me.status == 200 && me.body.ClaimsBody? && me.body.claims.id == 0 && me.body.claims.username == name
    ensures login.status == 200 && login.body == signup.body
    ensures wrongPassword == Fail(401, "Invalid credentials")
    ensures again == Fail(409, "Username already exists")
  {
    var store;
    store, signup := SignedUp(name, password, now);
    assert FindUser(store.users, name) == Some(0) by {
      assert 0 in store.users && store.users[0].username == name;
    }
    IssuedCookieAuthenticates(store.key, 0, name, now, now);
    me := store.Handle(GetMe, Some(signup.cookie.token), now);
    assert store.users == map[0 := User(name, Hash(password, 0), 0)];
    login := store.Login(Some(name), Some(password), now);
    wrongPassword := store.Login(Some(name), Some(wrong), now);
    again := store.Signup(Some(name), Some(other), now);
  }

  /**
   * bcrypt reads only the first 72 bytes of a password: after signing up with a
   * password at least that long, logging in with it followed by any other text
   * succeeds as the same user.
   */
  method LongerPasswordLogsIn(name: string, password: string, more: string, now: nat) returns (login: Response)
    requires name != [] && |Utf8(password)| >= MaxKeyBytes
    ensures login.status == 200 && login.body == UserBody(0, name)
  {
    var store, signup := SignedUp(name, password, now);
    assert password != [];
    assert FindUser(store.users, name) == Some(0) by {
      assert 0 in store.users && store.users[0].username == name;
    }
    BytesPast72AreIgnored(password, more, 0);
    login := store.Login(Some(name), Some(password + more), now);
  }

  /** Once alice has filed an entry under her profile, fetching the book lists exactly that entry. */
  method FetchShowsEntry(title: string, kind: EntryType, content: string, now: nat) returns (withEntry: Response)
    requires title != []
    ensures withEntry.status == 200 && withEntry.body.BookDetail?
    ensures withEntry.body.row == BookRow(1, Book(0, title, Profile, None, 1))
    ensures withEntry.body.entries == Some([EntryRow(2, Entry(1, kind, content, 2))])
  {
    var store := EntryFiled(title, kind, content, now);
    withEntry := store.GetBook(0, 1);
    OnlyRow(withEntry.body.entries.value, EntryRow(2, Entry(1, kind, content, 2)));
  }

  /** Once she deletes the entry, fetching the book lists no entries, and the entry cannot be deleted again. */
  method DeleteHidesEntry(title: string, kind: EntryType, content: string, now: nat) returns (removed: Response, afterDelete: Response, again: Response)
    requires title != []
    ensures removed == Response(200, Message("Deleted"), Keep)
    ensures afterDelete.status == 200 && afterDelete.body.BookDetail? && afterDelete.body.entries == Some([])
    ensures again == Fail(404, "Entry not found")
  {
    var store := EntryFiled(title, kind, content, now);
    removed := store.DeleteEntry(0, 2);
    assert store.entries == map[];
    NoChildrenNoRows(store.entries, 1);
    afterDelete := store.GetBook(0, 1);
    again := store.DeleteEntry(0, 2);
  }

  /**
   * Deleting a book takes its entries with it: afterwards neither the book nor its
   * entry is found, and alice has no books left.
   */
  method DeleteBookCascades(title: string, kind: EntryType, content: string, now: nat) returns (book: Response, entry: Response, listed: Response)
    requires title != []
    ensures book == Fail(404, "Book not found")
    ensures entry == Fail(404, "Entry not found")
    ensures listed == Response(200, BookList([]), Keep)
  {
    var store := EntryFiled(title, kind, content, now);
    var deleted := store.DeleteBook(0, 1);
    assert store.books == map[] && store.entries == map[];
    book := store.GetBook(0, 1);
    entry := store.DeleteEntry(0, 2);
    NoBooksNoRows(store.books, 0);
    listed := store.ListBooks(0);
  }

  /** bob has signed up on the server where alice keeps her profile and its entry. */
  method TwoTenants(title: string, content: string, now: nat) returns (store: Store)
    requires title != []
    ensures fresh(store) && store.Valid()
    ensures store.users == map[0 := User("alice", Hash("pw1", 0), 0), 3 := User("bob", Hash("pw2", 3), 3)]
    ensures store.books == map[1 := Book(0, title, Profile, None, 1)]
    ensures store.entries == map[2 := Entry(1, Feature, content, 2)] && store.nextId == 4
  {
    store := EntryFiled(title, Feature, content, now);
    assert "bob" != "alice";
    assert FindUser(store.users, "bob").None?;
    var bob := store.Signup(Some("bob"), Some("pw2"), now);
  }

  /**
   * bob sees none of alice's books, and cannot fetch, change or delete her book,
   * file under it, or delete her entry; alice's listing is as she left it.
   */
  method TenantsAreIsolated(title: string, content: string, now: nat)
    returns (listed: Response, peek: Response, edit: Response, remove: Response, file: Response, unfile: Response, hers: Response)
    requires title != []
    ensures listed == Response(200, BookList([]), Keep)
    ensures peek == Fail(404, "Book not found") && edit == peek && remove == peek
    ensures file == Fail(403, "Forbidden")
    ensures unfile == Fail(404, "Entry not found")
    ensures hers.status == 200 && hers.body.BookList? && hers.body.rows == [BookRow(1, Book(0, title, Profile, None, 1))]
  {
    var store := TwoTenants(title, content, now);
    NoBooksNoRows(store.books, 3);
    listed := store.ListBooks(3);
    peek := store.GetBook(3, 1);
    edit := store.UpdateBook(3, 1, Some("Mine"), None);
    remove := store.DeleteBook(3, 1);
    file := store.CreateEntry(3, Some(1), Some("secret"), Some("x"));
    unfile := store.DeleteEntry(3, 2);
    hers := store.ListBooks(0);
    OnlyBook(hers.body.rows, BookRow(1, Book(0, title, Profile, None, 1)));
  }

  /** alice has created the spreadsheet `title`. */
  method SpreadsheetCreated(title: string, now: nat) returns (store: Store)
    requires title != []
    ensures fresh(store) && store.Valid()
    ensures store.books == map[1 := Book(0, title, Spreadsheet, Some("[]"), 1)]
  {
    var signup;
    store, signup := SignedUp("alice", "pw1", now);
    assert ParseBookType("spreadsheet") == Some(Spreadsheet);
    var created := store.CreateBook(0, Some(title), Some("spreadsheet"));
  }

  /**
   * A new spreadsheet opens as the 10 by 5 blank grid; after one cell is edited
   * and the grid is saved through the update route, fetching the book and opening
   * it again gives back exactly the edited grid.
   */
  method SpreadsheetRoundTrip(title: string, text: string, now: nat) returns (atFirst: Grid.Grid, atLast: Grid.Grid)
    requires title != []
    ensures atFirst == Grid.DefaultGrid()
    ensures atLast == Grid.SetCell(Grid.DefaultGrid(), 0, 0, text)
  {
    var store := SpreadsheetCreated(title, now);
    var fetched := store.GetBook(0, 1);
    Grid.NewSpreadsheetOpensDefault();
    atFirst := Grid.Load(fetched.body.row.book.content);
    var edited := Grid.SetCell(atFirst, 0, 0, text);
    var saved := store.UpdateBook(0, 1, None, Some(Grid.Save(edited)));
    var refetched := store.GetBook(0, 1);
    Grid.LoadSave(edited);
    atLast := Grid.Load(refetched.body.row.book.content);
  }

  /**
   * Requests on a protected route are turned away before any handler runs: 401
   * without a cookie, 403 with a token signed under another key or past its
   * 24 hours.
   */
  method AuthenticationGate(forgedKey: string, now: nat) returns (noCookie: Response, forged: Response, expired: Response)
    requires forgedKey != DevSecret
    ensures noCookie == Fail(401, "Unauthorized")
    ensures forged == Fail(403, "Forbidden") && expired == forged
  {
    var store, signup := SignedUp("alice", "pw1", now);
    noCookie := store.Handle(PostBook(Some("Ops"), Some("profile")), None, now);
    forged := store.Handle(DeleteBookById(1), Some(Sign(forgedKey, 0, "alice", now)), now);
    expired := store.Handle(GetBooks, Some(signup.cookie.token), now + TokenLifetime);
  }
}
