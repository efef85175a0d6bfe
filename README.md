# Profile and spreadsheet books: a Dafny model

The application keeps "books" for its users. A book is either a profile, to
which the user files entries (traits, weaknesses, secrets, features), or a
spreadsheet, whose grid is stored as JSON text in the book's `content` column.
This project models two parts of it:

- **The REST server's document store.** The `users`, `books` and `entries`
  tables become maps from id to row, held in the `Server.Store` class. Each
  handler is a method (when it writes) or a function (when it only queries).
  Its contract gives the status and body it answers with and the exact new
  state of the tables. On top of that sit:
  - the schema invariant (`Server.Consistent`), which every write preserves;
  - tenant isolation: no write touches another user's books or entries;
  - the `ON DELETE CASCADE` of a book's entries.

  `Auth` models `authenticateToken`, with bcrypt and JWT idealised.
  `Tables` holds the row types, the CHECK constraints and the queries'
  selections and orderings.
- **The spreadsheet editor's grid.** `Grid` models opening a grid from
  stored content, cell edit, `addRow`, `addColumn`, the header labels, and the
  text `save` sends. `Json` is the part of `JSON.stringify`/`JSON.parse` the
  grid needs. It proves that parsing what was written gives back the value,
  so a saved grid reopens as itself.

`Scenarios` states and verifies whole conversations with a fresh store: what
the client sees at the end of each. They cover:
- signup, then `/me`, then login;
- a login with a longer password that shares the first 72 bytes;
- filing and deleting entries;
- deleting a book with its entries;
- two tenants;
- a spreadsheet edited, saved and reopened;
- the authentication gate.

Behaviour of the code worth noting, which the model keeps:
- A token that does not verify is answered with 403 "Forbidden".
- A book type outside `profile`/`spreadsheet` is refused by the CHECK
  constraint. The handler does not catch that, so the answer is a 500.
- An update may set a book's title to the empty string. `COALESCE` keeps the
  stored value only for a null.
- An entry's content may be empty. The handler does not test it.
- A new spreadsheet stores `"[]"`, which the editor opens as the 10×5 blank
  grid.
- bcrypt reads only the first 72 bytes of a password's UTF-8 form. A longer
  password that agrees on those bytes logs in too.

## Model

| member | source | states |
|---|---|---|
| Tables.ParseBookType | server.ts:30 | a book type is admitted exactly when it is `profile` or `spreadsheet`, each name standing for its own type |
| Tables.ParseEntryType | server.ts:39 | an entry type is admitted exactly when it is one of `trait`, `weakness`, `secret`, `feature` |
| Tables.FindUser | server.ts:100-101 | the lookup by username finds the user with that name, or reports that no user has it (usernames being unique) |
| Tables.Owns | server.ts:144 | the ownership gate of `WHERE id = ? AND user_id = ?` (also at server.ts:158, 165) and of `!book \|\| book.user_id !== req.user.id` at server.ts:178: the book exists and its owner is the caller |
| Tables.ChildrenOf | server.ts:149-150 | the entries with `book_id` equal to the book, unchanged |
| Tables.Cascade | server.ts:42 | the entries that survive a book's deletion are exactly those filed under other books, unchanged |
| Tables.CascadeRemovesExactlyChildren | server.ts:42 | the cascade and the book's children are disjoint, together they are the whole entries table, and their sizes add up to its size |
| Tables.NewestFirst | server.ts:128 | every id once, strictly newest `created_at` first |
| Tables.OldestFirst | server.ts:149 | every id once, strictly oldest first |
| Tables.BooksOf | server.ts:127-130 | the listing holds exactly the user's books as stored, in strictly decreasing `created_at` order |
| Tables.EntriesOf | server.ts:149-150 | the listing holds exactly the book's entries as stored, in strictly increasing `created_at` order |
| Tables.NoChildrenNoRows | server.ts:149-150 | a book with no entries lists none |
| Tables.NoBooksNoRows | server.ts:127-130 | a user with no books lists none |
| Auth.SigningKey | server.ts:48 | the key is `JWT_SECRET` when it is set and non-empty, the development key otherwise; it is never empty |
| Auth.Utf8Char | server.ts:77 | each character is one to four UTF-8 bytes, ASCII characters one byte, their own code |
| Auth.Utf8 | server.ts:77 | the UTF-8 form of a password is at least one and at most four bytes per character |
| Auth.Utf8Append | server.ts:77 | the UTF-8 form of a concatenation is the concatenation of the parts' forms |
| Auth.AsciiBytes | server.ts:77 | an ASCII password is encoded one byte per character, each its own code |
| Auth.KeyBytes | server.ts:77 | the bytes bcrypt uses are the first 72 bytes of the password's UTF-8 form, or all of it when shorter |
| Auth.Hash | server.ts:77 | the stored hash carries its salt and verifies the password it was made from |
| Auth.Verifies | server.ts:103 | a password verifies only when the hash's key is a prefix of its UTF-8 form, of at most 72 bytes; below 72 bytes, only when the key is exactly its bytes |
| Auth.HashVerifiesOnlyItsPassword | server.ts:77-103 | a stored hash verifies its own password, and exactly the passwords that agree with it on their first 72 bytes; below 72 bytes, only the same bytes |
| Auth.ShortAsciiPasswordsMustMatch | server.ts:103 | for ASCII passwords shorter than 72 characters, a hash verifies another password only when the two are equal |
| Auth.BytesPast72AreIgnored | server.ts:103 | a password of at least 72 bytes followed by any text verifies against the hash of the password alone |
| Auth.Sign | server.ts:82 | a signed token carries the user's id and name and expires 24 hours after issue |
| Auth.Verify | server.ts:62 | a token verifies exactly when it was signed with the server's key and has not expired, yielding exactly its claims |
| Auth.SignedTokenVerifiesFor24Hours | server.ts:82 | a token the server issued verifies with its own claims before 24 hours have passed, and not after |
| Auth.OnlyTokensSignedWithTheKeyVerify | server.ts:62-64 | any token that verifies is the server's signature over the claims it yields |
| Auth.NoToken | server.ts:59-60 | `!token`: no cookie, or an empty one |
| Auth.Authenticate | server.ts:58-66 | no token gives 401 "Unauthorized"; a token that does not verify gives 403 "Forbidden"; otherwise the caller is exactly the claims of a token signed with the server's key |
| Auth.IssuedCookieAuthenticates | server.ts:82-88 | the cookie set at signup or login authenticates its holder as that user within 24 hours |
| Server.Missing | server.ts:74 | `!field`: the body field is absent, null or the empty string |
| Server.Foreign | server.ts:144 | the books owned by someone other than the caller, unchanged |
| Server.ForeignEntries | server.ts:190 | the entries filed under books owned by someone other than the caller, unchanged |
| Server.InsertBookIsolated | server.ts:138-139 | adding a book owned by the caller leaves other tenants' books and entries as they were |
| Server.ReplaceBookIsolated | server.ts:158-159 | rewriting one of the caller's books leaves other tenants' books and entries as they were |
| Server.DeleteBookIsolated | server.ts:165-166 | deleting one of the caller's books, with its cascade, leaves other tenants' books and entries as they were |
| Server.InsertEntryIsolated | server.ts:176-182 | adding an entry under one of the caller's books leaves other tenants' entries as they were |
| Server.DeleteEntryIsolated | server.ts:188-192 | removing an entry under one of the caller's books leaves other tenants' entries as they were |
| Server.Consistent | server.ts:18-44 | the schema: ids and stamps below the next fresh id, usernames non-empty and unique, every book's owner and every entry's book present, no two books or two entries sharing a stamp |
| Server.InsertUserConsistent | server.ts:19-24 | inserting a user with a fresh id and a unique non-empty name keeps the schema invariant |
| Server.InsertBookConsistent | server.ts:26-34 | inserting a book with a fresh id, owned by an existing user, keeps the schema invariant |
| Server.ReplaceBookConsistent | server.ts:156-159 | rewriting a book's title or content keeps the schema invariant |
| Server.DeleteBookConsistent | server.ts:42 | deleting a book together with its cascade keeps every foreign key valid |
| Server.InsertEntryConsistent | server.ts:36-43 | inserting an entry with a fresh id under an existing book keeps the schema invariant |
| Server.DeleteEntryConsistent | server.ts:188-192 | deleting an entry keeps the schema invariant |
| Server.Store.constructor | server.ts:14-48 | a fresh store: empty tables satisfying the schema, and the key chosen from `JWT_SECRET` |
| Server.Store.Signup | server.ts:72-96 | a missing or empty username or password gives 400 and a taken username gives 409, both changing nothing; otherwise exactly one user is added, with its password hashed, and the answer is `{ id, username }` with a token cookie for them |
| Server.Store.Login | server.ts:98-115 | 200 exactly when the username exists and the password verifies against its hash, answering with that user's own id and name and a fresh token cookie; an unknown or missing username or a wrong password gives 401; a missing password for a known user gives 500 |
| Server.Store.Logout | server.ts:117-120 | 200, and the token cookie is cleared |
| Server.Store.Me | server.ts:122-124 | 200 with exactly the token's claims |
| Server.Store.ListBooks | server.ts:127-131 | 200 with exactly the caller's books, newest first; no other user's book appears |
| Server.Store.CreateBook | server.ts:133-141 | a missing title or type gives 400; a type the CHECK refuses gives 500; both change nothing; otherwise exactly one book is added, owned by the caller, with content `"[]"` for a spreadsheet and null for a profile |
| Server.Store.GetBook | server.ts:143-154 | 404 exactly when the book is absent or not the caller's; a spreadsheet comes without entries, a profile with exactly the entries filed under it |
| Server.Store.UpdateBook | server.ts:156-162 | an absent or foreign book gives 404 and changes nothing; otherwise only the supplied title and content replace the stored ones, and owner, type, entries and users stay |
| Server.Store.DeleteBook | server.ts:164-169 | an absent or foreign book gives 404 and changes nothing; otherwise the book and exactly its entries are removed |
| Server.Store.CreateEntry | server.ts:172-184 | a missing, absent or foreign book gives 403; a missing or refused type, or a missing content, gives 500; both change nothing; otherwise exactly one entry is added under the book |
| Server.Store.DeleteEntry | server.ts:186-195 | 404 and no change unless the entry exists under one of the caller's books; otherwise exactly that entry is removed |
| Server.Protected | server.ts:122-186 | the routes mounted behind `authenticateToken`: every route but signup, login and logout |
| Server.RouteOutcome | server.ts:133-195 | for each writing route: its error answers (400, 403, 404, and the 500 a row refused by a CHECK, NOT NULL or FOREIGN KEY constraint draws from POST /api/books and POST /api/entries) and when each applies; exactly when it succeeds; and on success its answer and the exact new books, entries and id supply |
| Server.Store.Serve | server.ts:122-195 | a protected request keeps the schema invariant; a rejected request changes nothing; each writing route answers and writes as `RouteOutcome` states; it never changes the users table or any other tenant's books and entries; the read-only routes change nothing |
| Server.Store.Handle | server.ts:58-195 | a protected route whose authentication fails answers 401 or 403 and changes nothing; otherwise the caller is the token's user and the route answers and writes as `Serve` states; no rejected request changes anything; signup answers 400 when a field is missing, 409 when the name is taken, and otherwise succeeds, adding exactly that user with a signed cookie; login and logout change nothing |
| Json.SkipWs | src/components/SpreadsheetView.tsx:13 | what is skipped is whitespace, and what is left is the rest of the text, not starting with whitespace |
| Json.Encode | src/components/SpreadsheetView.tsx:50 | `JSON.stringify` writes a non-empty text whose first character starts a value: not whitespace, a comma or a closing bracket |
| Json.Parse | src/components/SpreadsheetView.tsx:13 | a blank text is not JSON |
| Json.HexDigit | src/components/SpreadsheetView.tsx:50 | a digit `JSON.stringify` writes in a `\u00xx` escape reads back as its value |
| Json.EscapeCharRoundTrip | src/components/SpreadsheetView.tsx:50 | every escaped character reads back as itself |
| Json.StringRoundTrip | src/components/SpreadsheetView.tsx:50 | an escaped string, followed by its closing quote, reads back as itself with the rest of the text untouched |
| Json.ValueRoundTrip | src/components/SpreadsheetView.tsx:50 | every value written by `stringify` reads back as itself, whatever text follows it |
| Json.ItemsRoundTrip | src/components/SpreadsheetView.tsx:50 | the items of an array, written with commas between them, read back up to the closing bracket |
| Json.ParseEncode | src/components/SpreadsheetView.tsx:13-50 | `JSON.parse(JSON.stringify(j))` gives back `j` |
| Grid.Blank | src/components/SpreadsheetView.tsx:36 | a row of n empty cells |
| Grid.DefaultGrid | src/components/SpreadsheetView.tsx:18 | 10 rows of 5 empty cells |
| Grid.FromJson | src/components/SpreadsheetView.tsx:14-15 | a parsed value is taken as a grid only when it is an array of arrays of strings, and then it is that grid's JSON form |
| Grid.FromToJson | src/components/SpreadsheetView.tsx:50 | a grid's JSON form reads back as the same grid |
| Grid.Save | src/components/SpreadsheetView.tsx:50 | the content `save` sends is the text of a JSON array: it opens with `[` and closes with `]` |
| Grid.Parsed | src/components/SpreadsheetView.tsx:13 | null or empty content stands for `null`; any other value comes from `JSON.parse` of the content |
| Grid.UsableGrid | src/components/SpreadsheetView.tsx:14 | `Array.isArray(parsed) && parsed.length > 0 && Array.isArray(parsed[0])`: a parsed non-empty array whose first item is an array |
| Grid.Load | src/components/SpreadsheetView.tsx:11-22 | the opened grid is never empty; unless the content parses to a non-empty array whose first item is an array it is the default grid; any other grid it opens is exactly the parsed content |
| Grid.LoadUsesParsedGrid | src/components/SpreadsheetView.tsx:13-15 | content that parses to a non-empty grid, whatever its whitespace or escapes, opens as exactly that grid |
| Grid.SetCell | src/components/SpreadsheetView.tsx:25-31 | same number of rows and same row lengths; cell (row, col) holds the new value and every other cell is unchanged; out-of-range indices leave the grid as it was; a rectangular grid stays rectangular |
| Grid.AddRow | src/components/SpreadsheetView.tsx:33-38 | one more row, the existing rows unchanged, the new row blank and as long as the first row, or 5 cells when there is no first row or it is empty |
| Grid.AddColumn | src/components/SpreadsheetView.tsx:40-42 | same number of rows, each row extended by exactly one empty cell; rectangularity kept; width grows by one |
| Grid.ColumnLabels | src/components/SpreadsheetView.tsx:94-96 | one label per cell of the first row, column i labelled with code 65 + i |
| Grid.LoadSave | src/components/SpreadsheetView.tsx:50 | reopening the text `save` sends gives back the same grid, for any non-empty grid |
| Grid.LoadSaveEmpty | src/components/SpreadsheetView.tsx:14 | an empty grid saves as `[]` and reopens as the default grid, not as itself |
| Grid.EmptyGridText | src/components/SpreadsheetView.tsx:50 | the empty grid is written as `[]` |
| Grid.EmptyArrayText | src/components/SpreadsheetView.tsx:50 | the empty array is written as `[]` |
| Grid.NewSpreadsheetOpensDefault | server.ts:139 | the content a new spreadsheet is created with opens as 10 rows of 5 empty cells |
| Grid.AddRowKeepsRectangular | src/components/SpreadsheetView.tsx:33-38 | a rectangular grid at least one column wide stays rectangular under `addRow`, with the same width (5 for an empty grid) |
| Grid.AddRowToZeroWidthIsRagged | src/components/SpreadsheetView.tsx:35 | a grid whose first row is empty becomes ragged under `addRow`, because of the fallback to 5 |
| Grid.LabelsFollowEdits | src/components/SpreadsheetView.tsx:94-96 | adding a column adds exactly one label at the end; cell edits and added rows keep the labels |
| Grid.LabelsAreLettersUpToZ | src/components/SpreadsheetView.tsx:96 | the first 26 columns are labelled `A` to `Z`, and the 27th is labelled `[` |
| Scenarios.SignupThenLogin | server.ts:72-124 | after signup, `/me` with the signup cookie names the new user, login with the password answers as signup did, a password that differs within its first 72 bytes gives 401, and signing up again with the name gives 409 |
| Scenarios.LongerPasswordLogsIn | server.ts:98-114 | after signing up with a password of at least 72 bytes, logging in with that password followed by any text succeeds as the same user |
| Scenarios.FetchShowsEntry | server.ts:143-184 | after filing an entry under a profile, fetching the profile lists exactly that entry |
| Scenarios.DeleteHidesEntry | server.ts:143-195 | after deleting the entry, the profile lists no entries and deleting it again gives 404 |
| Scenarios.DeleteBookCascades | server.ts:164-195 | after deleting the book, neither it nor its entry is found and the owner lists no books |
| Scenarios.TenantsAreIsolated | server.ts:127-195 | a second user lists no books and gets 404 or 403 on every attempt at the first user's book and entry, while the first user's listing is unchanged |
| Scenarios.SpreadsheetRoundTrip | src/components/SpreadsheetView.tsx:11-50 | a new spreadsheet opens as the default grid; after one cell is edited and saved through the update route, reopening gives exactly the edited grid |
| Scenarios.AuthenticationGate | server.ts:58-66 | no cookie gives 401; a token signed under another key, or one past its 24 hours, gives 403 |

## Left out

- Express routing, the cookie options, Vite and static serving are transport. Each handler is modelled by the status, body and cookie change of its response.
- Server.Store.Signup: the generic 500 path for any other database or hashing failure is not modelled. Only the uniqueness failure is, as 409.
- Server.Store.Login: a request with no password for an existing user is modelled as a 500. In the source the handler is `async`, and `bcrypt.compare` rejects on the missing password. Express 4 ignores the promise a handler returns, so the rejection goes unhandled. Under Node's default unhandled-rejection mode the server process then exits, and every later request goes unanswered too. Any client that knows a username can trigger this. The model's 500 is what Express 5, which forwards a rejected handler promise to its error handler, would answer.
- Request body fields are strings or absent. Non-string JSON values (numbers, booleans, objects) in a body field are not modelled.
- Server.Store.GetBook: the entries query has no ORDER BY. The model fixes insertion (oldest-first) order, which the SQL does not guarantee.
- `created_at` is a counter shared with the id supply, not a timestamp. In the source, `CURRENT_TIMESTAMP` has one-second resolution. Books created in the same second therefore tie, and `ORDER BY created_at DESC` leaves their order unspecified. The model's counter never ties, so it fixes an order the source does not.
- Ids are naturals from a fresh-id counter, standing for `uuidv4()`. uuid collisions are not modelled.
- bcrypt and JWT are idealised. A hash records the salt and the first 72 UTF-8 bytes of its password. A token records its claims and signing key, and only the server's key verifies. Hash strength, token encoding and signature forgery are not modelled.
- Auth.Verifies: bcrypt's terminating NUL byte and its cycling of short keys are not modelled. Passwords containing the NUL character can therefore collide in bcrypt in ways the model does not show.
- Clocks are parameters (`now`, in seconds). I/O, concurrency, WAL mode and transaction atomicity are outside this sequential model: each handler is one atomic step.
- JSON numbers and objects are not parsed. Text holding them is treated like text `JSON.parse` rejects. Surrogate escapes (`\ud800` to `\udfff`), paired or not, are treated as unparseable. `JSON.parse` decodes a well-formed pair to one character, so such content opens as the parsed grid in the editor but as the default grid here.
- Grid.Load: content that is a non-empty array with an array first but holds non-string cells or non-array rows is used as-is by the editor. The model opens it as the default grid, because a grid here holds only string cells.
- The React rendering, navigation and `fetch` wrappers in the other UI files are not part of this model. The same goes for the error alert of `save`.
