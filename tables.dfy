/**
 * The three tables of the store (users, books, entries) as maps from id to
 * row, with the column constraints of the schema, and the row selections the
 * handlers' queries make.
 */
module Tables {
  import opened Wrappers

  /** A row id; the source draws them from `uuidv4()`, the model from a counter. */
  type Id = nat

  /** `books.type`: CHECK(type IN ('profile', 'spreadsheet')). */
  datatype BookType = Profile | Spreadsheet

  /** `entries.type`: CHECK(type IN ('trait', 'weakness', 'secret', 'feature')). */
  datatype EntryType = Trait | Weakness | Secret | Feature

  function BookTypeName(t: BookType): string {
    match t
    case Profile => "profile"
    case Spreadsheet => "spreadsheet"
  }

  /** The value the CHECK constraint on `books.type` admits, if `s` is one. */
  function ParseBookType(s: string): (r: Option<BookType>)
    ensures forall t :: r == Some(t) <==> s == BookTypeName(t)
  {
    if s == "profile" then Some(Profile)
    else if s == "spreadsheet" then Some(Spreadsheet)
    else None
  }

  function EntryTypeName(t: EntryType): string {
    match t
    case Trait => "trait"
    case Weakness => "weakness"
    case Secret => "secret"
    case Feature => "feature"
  }

  /** The value the CHECK constraint on `entries.type` admits, if `s` is one. */
  function ParseEntryType(s: string): (r: Option<EntryType>)
    ensures forall t :: r == Some(t) <==> s == EntryTypeName(t)
  {
    if s == "trait" then Some(Trait)
    else if s == "weakness" then Some(Weakness)
    else if s == "secret" then Some(Secret)
    else if s == "feature" then Some(Feature)
    else None
  }

  type Byte = b: int | 0 <= b < 256

  /**
   * `users.password_hash`: what `bcrypt.hash(password, 10)` stores, idealised.
   * The salt is fresh per user; the one-way property is not modelled, only
   * that the hash determines which key bytes verify against it.
   */
  datatype PasswordHash = Bcrypt(salt: nat, key: seq<Byte>)

  datatype User = User(username: string, passwordHash: PasswordHash, createdAt: nat)

  /** `content` is the nullable TEXT column; `createdAt` orders rows, it is not a date. */
  datatype Book = Book(userId: Id, title: string, kind: BookType, content: Option<string>, createdAt: nat)

  datatype Entry = Entry(bookId: Id, kind: EntryType, content: string, createdAt: nat)

  /** A row as `SELECT *` returns it: the id with the other columns. */
  datatype BookRow = BookRow(id: Id, book: Book)
  datatype EntryRow = EntryRow(id: Id, entry: Entry)

  /** `username TEXT UNIQUE`. */
  ghost predicate UniqueUsernames(users: map<Id, User>) {
    forall a, b :: a in users && b in users && users[a].username == users[b].username ==> a == b
  }

  /** No two books, or no two entries, were created at the same tick. */
  ghost predicate DistinctBookTimes(books: map<Id, Book>) {
    forall a, b :: a in books && b in books && books[a].createdAt == books[b].createdAt ==> a == b
  }

  ghost predicate DistinctEntryTimes(entries: map<Id, Entry>) {
    forall a, b :: a in entries && b in entries && entries[a].createdAt == entries[b].createdAt ==> a == b
  }

  /** The user a username belongs to: `SELECT * FROM users WHERE username = ?`. */
  function FindUser(users: map<Id, User>, name: string): (r: Option<Id>)
    requires UniqueUsernames(users)
    ensures r.Some? ==> r.value in users && users[r.value].username == name
    ensures r.None? ==> forall id :: id in users ==> users[id].username != name
  {
    if exists id :: id in users && users[id].username == name then
      var id :| id in users && users[id].username == name;
      Some(id)
    else None
  }

  /** A book the caller may see or change: present, and owned by the caller. */
  predicate Owns(books: map<Id, Book>, user: Id, id: Id) {
    id in books && books[id].userId == user
  }

  /** `WHERE book_id = ?`: the entries of one book. */
  function ChildrenOf(entries: map<Id, Entry>, bookId: Id): (r: map<Id, Entry>)
    ensures forall e :: e in r <==> e in entries && entries[e].bookId == bookId
    ensures forall e :: e in r ==> r[e] == entries[e]
  {
    map e | e in entries && entries[e].bookId == bookId :: entries[e]
  }

  /** The entries that survive `ON DELETE CASCADE` when book `bookId` is deleted. */
  function Cascade(entries: map<Id, Entry>, bookId: Id): (r: map<Id, Entry>)
    ensures forall e :: e in r <==> e in entries && entries[e].bookId != bookId
    ensures forall e :: e in r ==> r[e] == entries[e]
  {
    map e | e in entries && entries[e].bookId != bookId :: entries[e]
  }

  /** The cascade removes exactly the deleted book's entries: what it keeps and what it drops make up the table. */
  lemma {:induction false} CascadeRemovesExactlyChildren(entries: map<Id, Entry>, bookId: Id)
    ensures Cascade(entries, bookId).Keys !! ChildrenOf(entries, bookId).Keys
    ensures Cascade(entries, bookId) + ChildrenOf(entries, bookId) == entries
    ensures |Cascade(entries, bookId)| + |ChildrenOf(entries, bookId)| == |entries|
  {
    var kept, gone := Cascade(entries, bookId), ChildrenOf(entries, bookId);
    assert kept.Keys !! gone.Keys;
    assert kept.Keys + gone.Keys == entries.Keys;
    DisjointUnionSize(kept.Keys, gone.Keys);
    assert kept + gone == entries;
  }

  lemma {:induction false} DisjointUnionSize(a: set<Id>, b: set<Id>)
    requires a !! b
    ensures |a + b| == |a| + |b|
  {
  }

  // ---------------------------------------------------------------- ordering

  ghost predicate Injective(ages: map<Id, nat>) {
    forall a, b :: a in ages && b in ages && ages[a] == ages[b] ==> a == b
  }

  predicate IsNewest(ages: map<Id, nat>, k: Id) {
    k in ages && forall k' :: k' in ages ==> ages[k'] <= ages[k]
  }

  lemma {:induction false} NewestExists(ages: map<Id, nat>)
    requires ages != map[]
    ensures exists k :: IsNewest(ages, k)
    decreases |ages|
  {
    var k :| k in ages;
    var rest := ages - {k};
    assert rest.Keys == ages.Keys - {k};
    assert forall k' :: k' in ages ==> k' == k || k' in rest;
    if rest == map[] {
      assert IsNewest(ages, k);
    } else {
      NewestExists(rest);
      var m :| IsNewest(rest, m);
      if ages[m] < ages[k] {
        assert IsNewest(ages, k);
      } else {
        assert IsNewest(ages, m);
      }
    }
  }

  /** Ids listed each once, the largest age first. */
  ghost predicate ListsNewestFirst(ages: map<Id, nat>, ids: seq<Id>) {
    && |ids| == |ages|
    && (forall k :: k in ids <==> k in ages)
    && (forall i, j :: 0 <= i < j < |ids| ==> ages[ids[j]] < ages[ids[i]])
  }

  /** Putting the newest id in front of the rest, listed newest first, lists them all newest first. */
  lemma {:induction false} NewestInFront(ages: map<Id, nat>, k: Id, tail: seq<Id>)
    requires Injective(ages) && IsNewest(ages, k)
    requires ListsNewestFirst(ages - {k}, tail)
    ensures ListsNewestFirst(ages, [k] + tail)
  {
    var rest := ages - {k};
    assert |rest| == |ages| - 1 by {
      assert rest.Keys == ages.Keys - {k};
      assert |rest.Keys| == |ages.Keys| - 1;
    }
    FrontIsNewer(ages, k, tail);
    FrontSorted(ages, k, tail);
  }

  lemma {:induction false} FrontIsNewer(ages: map<Id, nat>, k: Id, tail: seq<Id>)
    requires Injective(ages) && IsNewest(ages, k)
    requires forall k' :: k' in tail <==> k' in ages - {k}
    ensures forall i :: 0 <= i < |tail| ==> tail[i] in ages && ages[tail[i]] < ages[k]
  {
    forall i | 0 <= i < |tail| ensures tail[i] in ages && ages[tail[i]] < ages[k] {
      assert tail[i] in tail;
    }
  }

  lemma {:induction false} FrontSorted(ages: map<Id, nat>, k: Id, tail: seq<Id>)
    requires k in ages && forall i :: 0 <= i < |tail| ==> tail[i] in ages && ages[tail[i]] < ages[k]
    requires forall i, j :: 0 <= i < j < |tail| ==> tail[j] in ages && tail[i] in ages && ages[tail[j]] < ages[tail[i]]
    ensures forall i, j :: 0 <= i < j < |[k] + tail| ==> ages[([k] + tail)[j]] < ages[([k] + tail)[i]]
  {
    var ids := [k] + tail;
    forall i, j | 0 <= i < j < |ids| ensures ages[ids[j]] < ages[ids[i]] {
      assert ids[j] == tail[j - 1];
      if i > 0 {
        assert ids[i] == tail[i - 1];
      }
    }
  }

  /** The ids of `ages`, each once, the largest age first: `ORDER BY created_at DESC`. */
  function NewestFirst(ages: map<Id, nat>): (ids: seq<Id>)
    requires Injective(ages)
    ensures ListsNewestFirst(ages, ids)
    decreases |ages|
  {
    if ages == map[] then []
    else
      NewestExists(ages);
      var k :| IsNewest(ages, k);
      var rest := ages - {k};
      assert rest.Keys == ages.Keys - {k};
      var tail := NewestFirst(rest);
      NewestInFront(ages, k, tail);
      [k] + tail
  }

  /** The same ids in the opposite order: the order rows were inserted in. */
  function OldestFirst(ages: map<Id, nat>): (ids: seq<Id>)
    requires Injective(ages)
    ensures |ids| == |ages|
    ensures forall k :: k in ids <==> k in ages
    ensures forall i, j :: 0 <= i < j < |ids| ==> ages[ids[i]] < ages[ids[j]]
  {
    var desc := NewestFirst(ages);
    var asc := Reverse(desc);
    assert forall i :: 0 <= i < |desc| ==> desc[i] in ages by {
      forall i | 0 <= i < |desc| ensures desc[i] in ages {
        assert desc[i] in desc;
      }
    }
    ReverseOrdered(ages, desc, asc);
    ReverseMembers(ages, desc, asc);
    asc
  }

  function Reverse(s: seq<Id>): (r: seq<Id>)
    ensures |r| == |s| && forall i :: 0 <= i < |s| ==> r[i] == s[|s| - 1 - i]
  {
    seq(|s|, i requires 0 <= i < |s| => s[|s| - 1 - i])
  }

  lemma {:induction false} ReverseOrdered(ages: map<Id, nat>, desc: seq<Id>, asc: seq<Id>)
    requires forall i :: 0 <= i < |desc| ==> desc[i] in ages
    requires forall i, j :: 0 <= i < j < |desc| ==> ages[desc[j]] < ages[desc[i]]
    requires asc == Reverse(desc)
    ensures forall i, j :: 0 <= i < j < |asc| ==> asc[i] in ages && asc[j] in ages && ages[asc[i]] < ages[asc[j]]
  {
    forall i, j | 0 <= i < j < |asc| ensures asc[i] in ages && asc[j] in ages && ages[asc[i]] < ages[asc[j]] {
      var i', j' := |desc| - 1 - j, |desc| - 1 - i;
      assert asc[i] == desc[j'] && asc[j] == desc[i'];
      assert ages[desc[j']] < ages[desc[i']];
    }
  }

  lemma {:induction false} ReverseMembers(ages: map<Id, nat>, desc: seq<Id>, asc: seq<Id>)
    requires forall k :: k in desc <==> k in ages
    requires asc == Reverse(desc)
    ensures forall k :: k in asc <==> k in ages
  {
    forall k | k in asc ensures k in ages {
      var i :| 0 <= i < |asc| && asc[i] == k;
      assert desc[|desc| - 1 - i] == k;
    }
    forall k | k in ages ensures k in asc {
      var i :| 0 <= i < |desc| && desc[i] == k;
      assert asc[|desc| - 1 - i] == k;
    }
  }

  /** Creation ticks of the books a user owns. */
  function OwnedAges(books: map<Id, Book>, user: Id): (ages: map<Id, nat>)
    requires DistinctBookTimes(books)
    ensures Injective(ages)
    ensures forall b :: b in ages <==> b in books && books[b].userId == user
    ensures forall b :: b in ages ==> b in books && ages[b] == books[b].createdAt
  {
    map b | b in books && books[b].userId == user :: books[b].createdAt
  }

  /** Creation ticks of the entries of one book. */
  function ChildAges(entries: map<Id, Entry>, bookId: Id): (ages: map<Id, nat>)
    requires DistinctEntryTimes(entries)
    ensures Injective(ages)
    ensures forall e :: e in ages <==> e in entries && entries[e].bookId == bookId
    ensures forall e :: e in ages ==> e in entries && ages[e] == entries[e].createdAt
  {
    map e | e in entries && entries[e].bookId == bookId :: entries[e].createdAt
  }

  /** `SELECT * FROM books WHERE user_id = ? ORDER BY created_at DESC`: exactly the user's books, newest first. */
  function BooksOf(books: map<Id, Book>, user: Id): (rows: seq<BookRow>)
    requires DistinctBookTimes(books)
    ensures forall row :: row in rows <==> row.id in books && row.book == books[row.id] && row.book.userId == user
    ensures forall i, j :: 0 <= i < j < |rows| ==> rows[j].book.createdAt < rows[i].book.createdAt
  {
    var ages := OwnedAges(books, user);
    var ids := NewestFirst(ages);
    var rows := seq(|ids|, i requires 0 <= i < |ids| => BookRow(ids[i], books[ids[i]]));
    RowsOfIds(books, ages, ids, rows);
    RowsNewestFirst(books, ages, ids, rows);
    rows
  }

  lemma {:induction false} RowsOfIds(books: map<Id, Book>, ages: map<Id, nat>, ids: seq<Id>, rows: seq<BookRow>)
    requires forall k :: k in ids <==> k in ages
    requires forall k :: k in ages ==> k in books
    requires |rows| == |ids| && forall i :: 0 <= i < |ids| ==> rows[i] == BookRow(ids[i], books[ids[i]])
    ensures forall row :: row in rows <==> row.id in ages && row.book == books[row.id]
  {
    forall row | row in rows ensures row.id in ages && row.book == books[row.id] {
      var i :| 0 <= i < |rows| && rows[i] == row;
      assert ids[i] in ids;
    }
    forall row: BookRow | row.id in ages && row.book == books[row.id] ensures row in rows {
      var i :| 0 <= i < |ids| && ids[i] == row.id;
      assert rows[i] == row;
    }
  }

  lemma {:induction false} RowsNewestFirst(books: map<Id, Book>, ages: map<Id, nat>, ids: seq<Id>, rows: seq<BookRow>)
    requires forall k :: k in ages ==> k in books && ages[k] == books[k].createdAt
    requires forall i :: 0 <= i < |ids| ==> ids[i] in ages
    requires forall i, j :: 0 <= i < j < |ids| ==> ages[ids[j]] < ages[ids[i]]
    requires |rows| == |ids| && forall i :: 0 <= i < |ids| ==> rows[i] == BookRow(ids[i], books[ids[i]])
    ensures forall i, j :: 0 <= i < j < |rows| ==> rows[j].book.createdAt < rows[i].book.createdAt
  {
    forall i, j | 0 <= i < j < |rows| ensures rows[j].book.createdAt < rows[i].book.createdAt {
      assert rows[i].id == ids[i] && rows[j].id == ids[j];
    }
  }

  /** `SELECT * FROM entries WHERE book_id = ?`: exactly the book's entries, in the order they were inserted. */
  function EntriesOf(entries: map<Id, Entry>, bookId: Id): (rows: seq<EntryRow>)
    requires DistinctEntryTimes(entries)
    ensures forall row :: row in rows <==> row.id in entries && row.entry == entries[row.id] && row.entry.bookId == bookId
    ensures forall i, j :: 0 <= i < j < |rows| ==> rows[i].entry.createdAt < rows[j].entry.createdAt
  {
    var ages := ChildAges(entries, bookId);
    var ids := OldestFirst(ages);
    var rows := seq(|ids|, i requires 0 <= i < |ids| => EntryRow(ids[i], entries[ids[i]]));
    EntryRowsOfIds(entries, ages, ids, rows);
    EntryRowsOldestFirst(entries, ages, ids, rows);
    rows
  }

  // The entry lemmas below repeat RowsOfIds and RowsNewestFirst for the other table:
  // rows of the two tables are different datatypes and are listed in opposite orders,
  // and a single generic lemma would need the row constructor and its age passed in
  // as functions, which makes every caller prove more, not less.
  lemma {:induction false} EntryRowsOfIds(entries: map<Id, Entry>, ages: map<Id, nat>, ids: seq<Id>, rows: seq<EntryRow>)
    requires forall k :: k in ids <==> k in ages
    requires forall k :: k in ages ==> k in entries
    requires |rows| == |ids| && forall i :: 0 <= i < |ids| ==> rows[i] == EntryRow(ids[i], entries[ids[i]])
    ensures forall row :: row in rows <==> row.id in ages && row.entry == entries[row.id]
  {
    forall row | row in rows ensures row.id in ages && row.entry == entries[row.id] {
      var i :| 0 <= i < |rows| && rows[i] == row;
      assert ids[i] in ids;
    }
    forall row: EntryRow | row.id in ages && row.entry == entries[row.id] ensures row in rows {
      var i :| 0 <= i < |ids| && ids[i] == row.id;
      assert rows[i] == row;
    }
  }

  lemma {:induction false} EntryRowsOldestFirst(entries: map<Id, Entry>, ages: map<Id, nat>, ids: seq<Id>, rows: seq<EntryRow>)
    requires forall k :: k in ages ==> k in entries && ages[k] == entries[k].createdAt
    requires forall i :: 0 <= i < |ids| ==> ids[i] in ages
    requires forall i, j :: 0 <= i < j < |ids| ==> ages[ids[i]] < ages[ids[j]]
    requires |rows| == |ids| && forall i :: 0 <= i < |ids| ==> rows[i] == EntryRow(ids[i], entries[ids[i]])
    ensures forall i, j :: 0 <= i < j < |rows| ==> rows[i].entry.createdAt < rows[j].entry.createdAt
  {
    forall i, j | 0 <= i < j < |rows| ensures rows[i].entry.createdAt < rows[j].entry.createdAt {
      assert rows[i].id == ids[i] && rows[j].id == ids[j];
    }
  }

  /** A book without children lists no entries. */
  lemma {:induction false} NoChildrenNoRows(entries: map<Id, Entry>, bookId: Id)
    requires DistinctEntryTimes(entries)
    requires forall e :: e in entries ==> entries[e].bookId != bookId
    ensures EntriesOf(entries, bookId) == []
  {
  }

  /** A user without books lists none. */
  lemma {:induction false} NoBooksNoRows(books: map<Id, Book>, user: Id)
    requires DistinctBookTimes(books)
    requires forall b :: b in books ==> books[b].userId != user
    ensures BooksOf(books, user) == []
  {
  }
}
