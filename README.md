# Barcode catalog, cart receipts, SQL templates and a file buffer — a Dafny model

This project models the sequential core of a small Python repository:

- **Barcode encoding and the product catalog** (`BarcodeData`, `Product` in
  `midterm.py`, copied into `sockets.py` and `test_socket.py`).
  `load_csv` turns every bar/space pattern of a Code 39 character table into
  a binary digest ('w' becomes '1', every other symbol '0'); `encode_string`
  encodes a text character by character, strictly (an unmapped character
  raises) or leniently (it is dropped); `load_products` keeps the rows with
  a name of at least five characters and a price, and keys each product by
  the concatenated digests of its upper-cased five-character prefix.
  Modules `Text`, `Barcode`, `Catalog`.
- **Carts and receipts** (`Cart.load_carts`, `decode_product`,
  `generate_receipts`): cart text is split on the cart-break line and on
  commas; tokens are trimmed, only 45-character tokens are looked up, the
  first product in load order wins, found prices are summed and a miss
  becomes a zero-priced line that carries the code. Module `Receipts`.
- **The barcode server's per-request step** (`handle_client` without the
  socket) and the **clients** (`send_barcode`/`run_client` of `sockets.py`,
  `send_cart`/`run_main` of `test_socket.py`). The network is a parameter
  `net: string -> Exchange` that says what the client sees for a request
  with a given text; every send of the same text sees the same exchange. Modules `Protocol`, `Sockets`, `TestSocket`.
- **`QueryBuilder`** (`sqlite_executor.py`, duplicated in `threaded.py`):
  SQL text templating, with the dispatch errors of `query`; and the message
  order of `AsyncQueryProducer.produce` / `AsyncQueryConsumer.consume` in
  `threaded.py`. Modules `QueryBuilder`, `AsyncPipeline`.
- **`FileHandler`** (`FileHandler.py`): a one-file buffer over a map from
  paths to contents. Module `Files`.

Objects whose methods update their fields are classes (`BarcodeData`,
`Product`, `Cart`, `FileHandler`, `Disk`); the loops of `encode_string`,
`load_products`, `generate_receipts`, `run_client`, `send_cart`, `run_main`,
`produce` and `consume` are methods with loop invariants, each proved
equal to a specification function about which the properties are proved as
lemmas. Pandas tables are sequences of records; prices are reals; JSON
replies are the datatype `Protocol.Reply`; receipts are datatypes of lines
rather than formatted text.

An empty pandas table (`pd.DataFrame([])`) has no columns, so filtering it
by a column raises `KeyError`. The model keeps the consequences: encoding a
non-empty text with an empty character table fails (`NoCharacterColumn`),
so `load_products` then skips every row; looking up a code in an empty
catalog fails (`NoEncodingColumn`), so `generate_receipts` stops at the
first cart with a 45-character token, and `handle_client` writes no reply.

A handler that fails (`sockets.py:119-120`, `test_socket.py:207-208`) only
logs the error: it writes no reply and does not close the connection. The
model treats such an exchange as one in which the client receives nothing
(`Exchange.Failed`).

## Model

| member | source | states |
|---|---|---|
| Barcode.Digest | midterm.py:19 | the digest has the pattern's length, with '1' exactly where the pattern has 'w' and '0' everywhere else |
| Barcode.DigestRoundTrip | sockets.py:20 | on narrow/wide patterns ('n'/'w') the digest is invertible: mapping '1' back to 'w' and '0' to 'n' restores the pattern |
| Barcode.MakeMapping | midterm.py:16-20 | a table row stores the trimmed character, the trimmed pattern and the digest of that trimmed pattern (of its length, made only of '0'/'1') |
| Barcode.BarcodeData.constructor | midterm.py:10-11 | a new character table is empty |
| Barcode.BarcodeData.LoadCsv | midterm.py:13-21 | the table becomes one mapping per row, in row order |
| Barcode.FirstRow | midterm.py:26-31 | the row used for a character is the first row whose character matches; none when no row matches |
| Barcode.FirstUnmapped | midterm.py:25-34 | finds the first character without a row; none exactly when every character is mapped |
| Barcode.FirstUnmappedAt | midterm.py:33-34 | the character strict mode reports is the first unmapped one |
| Barcode.BarcodeData.EncodeString | midterm.py:23-37 | empty table and non-empty text: missing-column failure; strict mode with an unmapped character: ValueError naming the first one; otherwise the lenient encoding |
| Barcode.EncodingAllMapped | test_socket.py:29-43 | when every character is mapped the encoding has one entry per character, in text order, each taken from the character's first row |
| Barcode.EncodingKeepsMappedChars | midterm.py:26-36 | the lenient encoding's characters are exactly the in-order subsequence of mapped characters of the text |
| Barcode.EncodingShorter | midterm.py:35-36 | an unmapped character makes the lenient encoding strictly shorter than the text |
| Barcode.EncodingAtMost | midterm.py:25-36 | the encoding never has more entries than the text has characters |
| Barcode.EncodingAppend | midterm.py:25-37 | encoding distributes over concatenation of texts |
| Catalog.CatalogStep | midterm.py:52-73 | the catalog of one more row is the previous catalog plus that row's record when the row is kept and the character table is non-empty, and the previous catalog otherwise |
| Catalog.Product.constructor | midterm.py:44-46 | a new product model holds its barcode model and no records |
| Catalog.Product.LoadProducts | midterm.py:48-75 | the products become the catalog of the rows under the current character table |
| Catalog.RecordOfKept | midterm.py:53-70 | a kept record has the trimmed name, the row's price, prefix name[:5].upper() and key the concatenated digests of the prefix |
| Catalog.CatalogFromKeptRows | sockets.py:53-71 | every catalog record comes from a kept row (trimmed name of at least 5 characters, price present) |
| Catalog.CatalogLoaded | test_socket.py:58-76 | every catalog record satisfies the loading rule: name length at least 5, prefix the upper-cased first five characters, encoding the prefix key |
| Catalog.CatalogSize | midterm.py:56-57 | with a non-empty character table, the catalog has exactly one record per kept row |
| Catalog.CatalogWithoutTable | midterm.py:71-73 | with an empty character table every row's encoding fails and is skipped, so the catalog is empty |
| Catalog.CatalogAppend | midterm.py:52-75 | the catalog of concatenated rows is the concatenation of the catalogs |
| Catalog.BinariesAppend | midterm.py:64 | joining the digests distributes over concatenation |
| Catalog.BinariesUniform | midterm.py:64 | joining digests of a common width w gives w times their number characters |
| Catalog.EncodingWidth | midterm.py:63-64 | under a table of uniform width every encoded entry has that width |
| Catalog.KeyWidth | midterm.py:60-64 | under a uniform width w, a fully mapped prefix has a key of w times its length; an unmapped prefix character shortens it |
| Catalog.KeyBinary | midterm.py:19 | a key built from digits-only digests is digits only |
| Catalog.KeyCons | midterm.py:63-64 | the key of a prefix starts with the first character's first-row digest |
| Catalog.KeyInjective | midterm.py:60-64 | under uniform width and pairwise distinct digests, two fully mapped prefixes with the same key are equal |
| Catalog.FirstWithEncoding | midterm.py:95-97 | finds the first product in load order with the code as encoding; none when no product has it |
| Catalog.DecodeProduct | midterm.py:93-98 | empty catalog: missing-column failure; a miss exactly when no product has the code; a hit returns a stored product with that encoding |
| Catalog.LookupRoundTrip | test_socket.py:99-104 | looking up any stored record's encoding hits; under uniform distinct digests and fully mapped prefixes the hit has the same prefix |
| Text.StripSlice | midterm.py:17-18 | strip removes whitespace-only ends and leaves a contiguous slice that neither starts nor ends with whitespace |
| Text.StripPadding | sockets.py:103 | surrounding a text with whitespace does not change its stripped form |
| Text.StripIdempotent | midterm.py:107 | stripping twice is stripping once |
| Text.StripKeeps | midterm.py:107 | a text without whitespace is its own stripped form |
| Text.Take | sockets.py:102 | reading at most n characters gives a prefix of at most n characters, the whole text when it is short enough |
| Text.IndexFrom | midterm.py:90 | finds the first occurrence of the separator at or after a position; none when there is no later occurrence |
| Text.JoinSplit | midterm.py:90-91 | joining the pieces of a split with the separator gives back the text |
| Text.SplitJoin | midterm.py:91 | splitting a join gives back the pieces when no piece contains the separator's first character and there is at least one piece |
| Text.SplitPiecesFree | test_socket.py:96 | no piece of a split contains the separator |
| Text.StripFree | test_socket.py:96 | stripping cannot create an occurrence of a pattern |
| Text.CountJoin | sqlite_executor.py:51 | a character absent from the separator occurs in a join as often as in all pieces together |
| Receipts.NonBlank | midterm.py:90 | every kept segment is non-blank and is the stripped form of some piece |
| Receipts.NonBlankAppend | midterm.py:90 | keeping non-blank pieces distributes over concatenation: nothing is dropped, reordered or merged across the boundary |
| Receipts.NonBlankSingle | midterm.py:90 | one piece is kept, stripped, exactly when its stripped form is non-blank |
| Receipts.ParseCarts | midterm.py:87-91 | one cart per kept segment, in order; joining a cart's tokens with commas gives its segment back |
| Receipts.SegmentsFree | midterm.py:90 | every segment a cart comes from is non-blank and holds no cart-break line |
| Receipts.Cart.constructor | midterm.py:82-85 | a new cart model holds its product model, no carts and no receipts |
| Receipts.Cart.LoadCarts | midterm.py:87-91 | the carts become the parsed cart text (one per kept segment, in file order, each the comma-split of its segment); receipts are untouched |
| Receipts.LinesOf | midterm.py:106-117 | one line per looked-up code, each the line for that code |
| Receipts.TallyStep | midterm.py:106-117 | the tally of one more token is the previous tally, extended for a 45-character stripped token |
| Receipts.TallyLines | midterm.py:106-118 | a cart's lines are the lines of its stripped 45-character tokens, in order (blank and other widths skipped) |
| Receipts.TallyTotal | midterm.py:112-116 | a cart's total is the sum of its lines' prices: found prices only, misses count zero |
| Receipts.SumAppend | midterm.py:114 | the total of concatenated lines is the sum of the totals |
| Receipts.CodesAppend | midterm.py:106-109 | the codes of concatenated tokens are the concatenated codes |
| Receipts.FirstRaising | midterm.py:102-111 | finds the first cart whose lookup fails (a 45-character token against an empty catalog); all carts before it succeed |
| Receipts.FirstRaisingIs | midterm.py:102-111 | any index with all earlier carts succeeding and that cart failing is the first failing cart |
| Receipts.Cart.GenerateReceipts | midterm.py:100-121 | receipts are rebuilt from scratch, one per cart in cart order, up to the first failing cart; failure reported exactly when there is one; carts unchanged |
| Protocol.Resolve | sockets.py:100-120 | empty catalog: the handler faults and writes nothing; a product reply only for a stored encoding equal to the stripped request; otherwise the error reply "Invalid barcode" with no product matching |
| Protocol.ResolveStored | test_socket.py:189-201 | a request equal to a stored whitespace-free encoding gets the first such product's name and price |
| Protocol.ResolvePadding | sockets.py:102-106 | whitespace around a request does not change the answer, as long as the padded request fits within the 1024-character read |
| Protocol.ResolveReadLimit | test_socket.py:191 | only the first 1024 characters of a request are read |
| Protocol.Reliable | sockets.py:114-120 | a reliable connection delivers exactly the one reply the handler wrote, and fails exactly when the handler faulted and wrote none |
| Sockets.HandleClient | sockets.py:100-120 | empty catalog: fault, nothing written; a product reply exactly when some stored encoding equals the stripped request, carrying the first such product; otherwise {"error": "Invalid barcode"} |
| Sockets.SendBarcode | sockets.py:129-140 | the reply read when the exchange completes; {"error": "Connection failed"} when anything fails, including closing after the read; an error reply the client reads is keyed "error" |
| Sockets.ReliableReply | sockets.py:129-140 | over a reliable connection the client reads the server's product or "Invalid barcode", and "Connection failed" when the server wrote nothing |
| Sockets.SessionEvents | sockets.py:150-167 | one log entry per non-skipped cell, in order: a cart close exactly at the break line, otherwise the priced item or the warning the reply carries |
| Sockets.SessionBalanced | sockets.py:148-158 | the running total always equals the sum of prices since the last break, and each cart-close entry carries exactly that sum |
| Sockets.EmptyCatalogSession | sockets.py:119-120 | against a server with an empty catalog every lookup fails, nothing is priced and the total stays zero |
| Sockets.SessionStep | sockets.py:151-167 | the session after one more cell is one step of the loop body |
| Sockets.FlattenStep | sockets.py:150-151 | the cells of one more row follow the cells of the previous rows |
| Sockets.LogCell | sockets.py:152-167 | one cell: a blank or "nan" cell changes nothing, the break line logs the cart total and resets it to zero, any other item logs its reply and adds the price of a found product |
| Sockets.RunClient | sockets.py:143-169 | the logged events and final total are those of the session over all cells, row by row |
| TestSocket.HandleClient | test_socket.py:189-208 | empty catalog: fault, nothing written; a product reply exactly when some stored encoding equals the stripped request, carrying the first such product; otherwise {"Error": "Invalid barcode"} |
| TestSocket.Recorded | test_socket.py:222-233 | one or two results per sent code, each carrying the raw code; the delivered reply comes first; the last result is the connection error exactly when the exchange failed (before or after the reply) or the reply was that error itself |
| TestSocket.CartResultsCount | test_socket.py:217-234 | one result per 45-character token plus one more for each close failure |
| TestSocket.ResultsFromNet | test_socket.py:219-233 | every result carries a raw 45-character token of the cart and a reply from the network or the connection error |
| TestSocket.SendCart | test_socket.py:217-234 | the results are the cart's results in token order |
| TestSocket.ClientTallySpec | test_socket.py:247-259 | one receipt line per result, each the line of that result; the total is the sum of product prices only |
| TestSocket.ClientTallyAppend | test_socket.py:250-256 | one more result adds its line and its price |
| TestSocket.RunMain | test_socket.py:237-262 | one receipt per cart, in cart order, each made from the cart's results |
| TestSocket.TokenMatches | test_socket.py:189-201 | over a reliable connection a token's online line corresponds to its offline line, with the same price |
| TestSocket.OnlineMatchesOffline | test_socket.py:106-127 | over a reliable connection to a non-empty catalog, the online receipt of a cart has the same number of lines, corresponding lines and the same total as the offline receipt |
| TestSocket.EmptyCatalogOnline | test_socket.py:207-208 | against an empty catalog every 45-character token yields a connection error and the total is zero |
| QueryBuilder.SqliteType | sqlite_executor.py:32-40 | integer maps to INTEGER, float to REAL, bool to BOOLEAN, everything else to TEXT, each in both directions |
| QueryBuilder.CreateColumnsRoundTrip | sqlite_executor.py:42-44 | splitting the column definitions of CREATE on ", " gives one definition per column in column order |
| QueryBuilder.InsertColumnsRoundTrip | sqlite_executor.py:49-50 | splitting INSERT's column list on ", " gives the quoted columns in order |
| QueryBuilder.Create | sqlite_executor.py:42-44 | CREATE ends in ';' and takes no parameters when neither the table nor a column name holds '?' |
| QueryBuilder.Drop | sqlite_executor.py:46-47 | DROP ends in ';' and takes no parameters when the table name holds no '?' |
| QueryBuilder.Insert | sqlite_executor.py:49-52 | INSERT ends in ';' and, when neither the table nor a column name holds '?', has exactly one '?' placeholder per column |
| QueryBuilder.SelectAll | sqlite_executor.py:54-55 | SELECT_ALL ends in ';' and takes no parameters when the table name holds no '?' |
| QueryBuilder.SelectWhere | sqlite_executor.py:57-59 | SELECT ... WHERE ends in ';' and, when neither the table nor a where column name holds '?', has one '?' per where column |
| QueryBuilder.Delete | sqlite_executor.py:67-69 | DELETE ends in ';' and, when neither the table nor a where column name holds '?', has one '?' per where column |
| QueryBuilder.UpdatePartition | threaded.py:64-68 | the SET columns are the frame's columns not in where_columns and the key columns those in it; together they are the columns |
| QueryBuilder.SetColumnsPlain | sqlite_executor.py:62 | SET columns are drawn from the columns, so they carry no '?' |
| QueryBuilder.Update | sqlite_executor.py:61-65 | UPDATE ends in ';' and, when neither the table nor a column or where column name holds '?', has one '?' per SET column plus one per where column |
| QueryBuilder.JoinSelect | sqlite_executor.py:71-77 | fails with AttributeError exactly without a frame; otherwise ends in ';', and when neither the table, the join table, the join condition nor a column or where column name holds '?', has one '?' per where column, none when where_columns is empty or absent |
| QueryBuilder.ConditionList | sqlite_executor.py:58 | when neither the qualifier nor a column name holds '?', the " AND "-joined conditions have one '?' per column |
| QueryBuilder.QualifiedListPlain | sqlite_executor.py:72 | the table-qualified column list carries no '?' |
| QueryBuilder.PlaceholderList | sqlite_executor.py:51 | the ", "-joined placeholder list of n has n '?' |
| QueryBuilder.TemplatesInjective | sqlite_executor.py:46-55 | DROP and SELECT_ALL are fixed templates around the table name: different tables give different statements |
| QueryBuilder.Query | sqlite_executor.py:22-30 | JOIN_SELECT always goes to its template; an unknown type raises KeyError; a known type is called with the frame and where list when a frame is given (CREATE/INSERT/SELECT_WHERE/UPDATE/DELETE give their template) and with nothing otherwise (DROP/SELECT_ALL give theirs); TypeError exactly when the arguments do not fit; every statement ends in ';' |
| AsyncPipeline.Produced | threaded.py:111-122 | CREATE first, then one INSERT per row with the row's values, then SELECT_ALL, then the shutdown sentinel last |
| AsyncPipeline.PutRows | threaded.py:116-118 | the queue gains one INSERT message per row, in row order, each carrying that row |
| AsyncPipeline.Produce | threaded.py:111-122 | the queue holds the produced messages |
| AsyncPipeline.FirstStop | threaded.py:133-137 | finds the first message that ends the consumer (the sentinel, or an empty or all-whitespace statement); none of the earlier messages is one |
| AsyncPipeline.Consume | threaded.py:129-144 | executes the messages in arrival order up to the first that ends it; ends on the sentinel, with IndexError on a blank statement (its first word does not exist), or by timeout when the queue runs dry, each exactly when that is the case |
| AsyncPipeline.StatementsRun | threaded.py:112-121 | no statement the producer queues is the sentinel or blank, so none ends the consumer early |
| AsyncPipeline.PipelineRunsAll | threaded.py:111-144 | the consumer executes CREATE, every INSERT in row order and SELECT_ALL, then stops at the sentinel |
| AsyncPipeline.FirstStopAt | threaded.py:130-137 | the consumer ends at any message that ends it when no earlier one does |
| Files.FileHandler.constructor | FileHandler.py:5-9 | a new handler has an empty buffer and is in binary mode |
| Files.FileHandler.FileLength | FileHandler.py:37-40 | the buffer's length, 0 when it is empty |
| Files.FileHandler.Read | FileHandler.py:11-23 | 'b'/'binary' loads the bytes and sets binary mode, 't'/'txt' loads the text and clears it, any other type raises ValueError; afterwards the length is the file's length |
| Files.FileHandler.Write | FileHandler.py:25-34 | empty buffer: ValueError and the file is untouched; a payload of the mode's kind becomes the file's contents; a payload of the other kind raises TypeError after opening has emptied the file; the buffer is unchanged |
| Files.FileHandler.CloseError | FileHandler.py:42-46 | close raises ValueError exactly in binary mode or with an empty buffer; otherwise it fails on the text buffer |
| Files.FileHandler.Close | FileHandler.py:42-46 | close always raises, with that error |
| Files.FileHandler.Reset | FileHandler.py:48-50 | reset raises close's error before reading again |
| Files.WriteThenRead | FileHandler.py:58-79 | after read, write(x) and read, the buffer is x and the length is that of x |

## Left out

- Reading CSV and text files, opening sockets, logging and printing: every
  file's rows or text is a parameter; pandas' type inference, `fillna` and
  `astype(str)` are not modelled (rows arrive as strings, a price as an
  optional real).
- asyncio: `start_server`, `serve_forever`, `open_connection`, `sleep`,
  task creation and cancellation, and concurrent connections. The network
  is the parameter `net`; what the server's handler would produce over a
  reliable connection is `Protocol.Reliable`.
- JSON encoding and decoding, bytes-to-text decoding (UTF-8) and partial
  reads: a request is text, and a reply is a `Protocol.Reply` value.
- The client's own 1024-byte read limit on replies: a reply that does not
  fit would fail to parse, which `net` can express as `Exchange.Failed`.
- Connections that behave differently for the same request text: the
  clients open a fresh connection for every token (`sockets.py:129-131`,
  called once per cell from `sockets.py:151`; `test_socket.py:219-223`),
  so a repeated code could fail once and succeed the next time. `net`
  answers equal request texts identically, so the lemmas that hold for
  every `net` (`Sockets.SessionEvents`, `Sockets.SessionBalanced`,
  `TestSocket.CartResultsCount`, `TestSocket.ResultsFromNet`) cover only
  such networks.
- A client waiting for a reply from a handler that wrote nothing: the
  model treats it as a failed exchange rather than a hang.
- Sockets.ClientSession, Sockets.RunClient, Sockets.LogCell and the
  session lemmas: require that every reply is readable; a reply under any
  key other than "error" makes the `sockets.py` client index a missing key
  and stop, which the model excludes by precondition instead of modelling
  the crash.
- Float arithmetic and the `:>6.2f` receipt formatting: prices are reals
  and receipts are lists of line values.
- Upper- and lower-casing outside ASCII: `str.upper` and `str.lower` on
  other letters are not modelled (`Text.UpperChar` and `Text.LowerChar`
  change only 'a'-'z' and 'A'-'Z').
- `print_receipts`, `save_receipts` and `main`: output only.
- `CommandExecutor` and `AsyncCommandExecutor`: database execution through
  sqlite3 and aiosqlite.
- The asyncio queue of `threaded.py`, its `wait_for` timeout and the delay
  between inserts: the queue is a sequence; running dry stands for the
  timeout.
- Files.FileHandler.Close and Files.FileHandler.Reset: the success paths do
  not exist (a text buffer is a `str`, which has no `close`), so only the
  errors are modelled; `reset` therefore never reads again.
- Files.FileHandler.Read and Files.FileHandler.FileLength: text mode reads
  with the locale's codec and translates newlines (`FileHandler.py:18-19`);
  the model reads the stored contents unchanged in both modes, so a text
  file's length is its stored length.
- AsyncPipeline.Consume: an exception raised by `execute` (a failing
  statement, `threaded.py:100-102`) is not caught by the loop, which only
  catches the timeout (`threaded.py:142`), so it ends `consume` before the
  sentinel; the model executes every non-blank statement successfully (the
  IndexError of a blank statement, `threaded.py:137`, is modelled).
- TestSocket.RunMain: requires that every reply keyed "Product" carries a
  price (`NetUnderstood`); a reply with "Product" but no "Price" makes
  `test_socket.py:252-253` index a missing key and stop, which the model
  excludes by precondition instead of modelling the crash.
- Files.FileHandler.Write: payloads other than bytes or text, newline
  translation in text mode and write failures of the operating system are
  not modelled; bytes and text are both sequences of characters.
- The GUI (`TkinterEx.py`, `exTk.py`), the scraper (`WebScraper.py`,
  `dfmodule.py`) and `Files.py`: file-system, network and widget code
  outside this model.
