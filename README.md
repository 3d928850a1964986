# Shopping-assistant client core in Dafny

This project models the client-side logic of the shopping-assistant
command-line client `main.py` and proves properties of it. The server does
the search, and the HTTP exchange, JSON decoding and console I/O are not
modelled. What remains is four pieces of sequential logic:

- **The result pager of `recommend`** (`pager.dfy`, module `Pager`). The
  server's records are a sequence of `Record`s. The user's answers to
  "Would you like to see more results? (y/n)" are a sequence of strings.
  What the client writes is a sequence of `Event`s: `Show(i)` stands for
  the two lines that print record i, and the other events stand for the
  fixed messages. `Recommend`, `PageOn`, `ShowPage` and `AskToContinue` are
  imperative methods with the source's `counter`, page counter `a` and flag
  `bool`. They are proved equal to the reference definitions `Session`,
  `Dialogue` and `Ask`, which describe the output page by page. The lemmas
  about those definitions are the properties the pager promises.
- **The cart listing of `list`** (`cart_list.dfy`, module `CartList`). Each
  row is a sequence of `Cell`s, a number (a price in cents) or a text. It
  becomes a `Product` from `row[0]`, `row[1]` and `row[2]`. The listing
  prints every product and then a subtotal line with the item count and
  the sum of the prices. `Subtotal` is the reference sum.
- **Command parsing in `prompt`** (`command.dfy`, module `Command`).
- **Base-URL validation and normalisation** (`base_url.dfy`, module
  `BaseUrl`).

`wrappers.dfy` holds `Option` and `Result`.

Input that runs out is modelled as an event. When `input()` finds no
answer left, Python raises `EOFError`, and the command handler logs the
error and returns (main.py:196-199). The pager then writes `InputEnded` and stops. An
exception in `list` is modelled the same way: a row with fewer than three
values raises `IndexError`, and a price that is not a number raises
`TypeError` when it is added. Either one ends the listing with `Failed`
(main.py:453-456).

When the number of records is a positive multiple of 5, the client asks
"see more?" again after the last full page; a "y" then shows nothing and
writes "no more" (main.py:176-189). `ExhaustiveSession` and `DialogueToEnd`
state this.

## Model

| member | source | states |
|---|---|---|
| Pager.Session | main.py:142-194 | Reference definition of everything the pager writes for n records: "no match" for none, every record and "no more" for 1 to 4, otherwise the first page of five followed by the dialogue. |
| Pager.Dialogue | main.py:175-193 | Reference definition of the paging after a whole number of pages: ask; on "go on" show the next five records and recurse, or the remaining records and "no more" when fewer than five are left; on any other reply stop. |
| Pager.Recommend | main.py:142-194 | The output is the reference session for the records and answers. It shows exactly records 0 .. min(5(c+1), n) - 1 in order, c being the number of questions answered "go on". No records give only "no match". 1 to 4 records are each shown once, in order, then "no more", and the question is never asked. |
| Pager.PageOn | main.py:166-193 | After the first page of n >= 5 records, the loops write exactly the reference dialogue. The loop ends because a page is started only while 5 · (page - 1) <= n, whatever the answers are. |
| Pager.ShowPage | main.py:176-185 | The inner loop shows records counter .. 5·page - 1, or, when the records run out first, records counter .. n - 1 and then "no more". The flag stays "y" exactly when the page fits. counter never decreases and never passes n. |
| Pager.AskToContinue | main.py:188-193 | Reading the answers from position next, the question writes, consumes and decides exactly what `Ask` does. It reads at most two answers. |
| Pager.Ask | main.py:188-193 | A question consumes at most two answers, and at least one unless input ran out. |
| Pager.AskReplies | main.py:188-193 | Only "y" goes on, either first or after one re-ask. The re-ask ("must answer with y or n!") happens exactly when the first answer is neither "y" nor "n". Input runs out exactly when no final answer was read. Every question starts with the prompt. |
| Pager.YesNo | main.py:188-191 | The character-level answer tests agree with the string comparisons against "y" and "n". |
| Pager.DialogueShown | main.py:175-193 | After shown = 5j records, the dialogue shows exactly records shown .. min(shown + 5c, n) - 1 in order, c being the number of "go on" replies. |
| Pager.SessionShown | main.py:159-187 | The whole session shows exactly records 0 .. min(5(c+1), n) - 1 in order. |
| Pager.RangePrefix | main.py:159-187 | Those shown indices are 0, 1, ..., m - 1: a prefix of the records, with no repeats and no index past the end. |
| Pager.ContinuesYs | main.py:175-193 | k leading answers "y" are k more questions that go on. |
| Pager.DialogueNoMore | main.py:176-193 | After shown records the dialogue writes "no more" exactly when the answers go on more than (n - shown) / 5 times, whatever else the user typed. |
| Pager.SessionNoMore | main.py:142-193 | The session writes "no more" exactly when there is a record and the answers go on at least n / 5 times. |
| Pager.DialogueToEnd | main.py:176-189 | When the answers go on at least k times and the k-th "go on" reaches the end, the dialogue ends with "no more". Just before it comes the question when the records end on a page boundary, and otherwise the last record. |
| Pager.ExhaustiveSession | main.py:176-189 | Answers that go on at least n / 5 times, for instance n / 5 answers "y", show all n >= 5 records in order. The output ends with "no more". The question comes just before "no more" exactly when n is a multiple of 5; otherwise the last record does. |
| CartList.ProductOf | main.py:31-34 | A row becomes a product exactly when it has three values. The product's id, title and price are row[0], row[1] and row[2]. |
| CartList.ListCart | main.py:421-450 | A short row fails before anything is printed. An empty cart prints only "no products...". If every price is a number, each product is printed in order and then one subtotal line with the row count and the sum of the prices. Otherwise the products are printed up to the first one whose price is not a number, and the listing fails right after it. |
| CartList.MapRows | main.py:421-424 | Mapping succeeds exactly when every row has three values, and then yields ProductOf of each row, in order. |
| CartList.PrintProducts | main.py:436-450 | The print-and-accumulate loop. It gives the lines and the subtotal described for `ListCart`, in both the all-priced and the failing case. |
| CartList.Subtotal | main.py:436-448 | Reference definition of the running total: the sum of the price `row[2]` over the rows, added front to back. |
| CartList.SubtotalStep | main.py:447-448 | Adding one more priced row adds its price to the running total. |
| CartList.SubtotalAppend | main.py:436-448 | The subtotal of two lists of rows is the sum of their subtotals. |
| CartList.SubtotalRemove | main.py:436-448 | Removing one row takes exactly its price out of the subtotal. |
| CartList.SubtotalPermutation | main.py:436-450 | Any reordering of the same rows has the same subtotal. |
| Command.IsNumeric | main.py:68-69 | The `isnumeric` test on ASCII text: non-empty, and every character a digit. |
| Command.DigitsValue | main.py:70-71 | The value `int` gives a digit text, most significant digit first. |
| Command.ParseCommand | main.py:64-73 | The command is -1 exactly when the text is empty or not all digits, so "-1", "abc" and "" all give -1. Otherwise it is the non-negative value of the digits. |
| Command.ParseShowNat | main.py:64-73 | Every number typed in decimal is read back as itself. |
| Command.ShowParse | main.py:64-73 | A digit text without leading zeros is the decimal notation of its value, so parsing is one to one on such texts. |
| BaseUrl.CheckBaseUrl | main.py:629-643 | The URL is rejected as too short exactly when it is under 16 characters. It is rejected as the placeholder exactly when it equals the placeholder gateway, and as not https exactly when it then starts with "http:". Otherwise the result is the URL with at most one trailing "/" removed, and nothing else changes. |
| BaseUrl.PlaceholderWithSlashAccepted | main.py:633-643 | The placeholder with a trailing "/" is accepted and normalised to the placeholder itself, which the same checks reject. |
| BaseUrl.CheckGatewayUrl | main.py:629-643 | The corrected checks. They are the same, except that the placeholder is rejected with or without its trailing slash, so an accepted URL is never the placeholder. |
| BaseUrl.GatewayAgreesElsewhere | main.py:633-635 | The corrected checks agree with the original on every other input. |
| BaseUrl.GatewayStable | main.py:629-643 | An accepted URL that is still at least 16 characters long and has no trailing slash is accepted again, unchanged. |

## Left out

- HTTP requests, status-code branches and JSON decoding: network I/O. The records of `recommend` and the rows of `list` are inputs.
- The copy of response rows into `[product_id, product_url]` pairs (main.py:134-137): plain data plumbing. The pager starts from the records.
- Printing the menu in `prompt`, and what each message says: console I/O. The messages are `Event`s and `Line`s.
- `get_product_url`, `upload`, `download` and `remove`: thin wrappers over HTTP, file and base64 library calls.
- Reading the configuration file and the file-existence checks: file I/O. The base URL is an input.
- The command dispatch loop: routing to I/O functions.
- `initialize_db.py`: a database bulk insert through a foreign module. initialize_db.py is not part of this model.
- Search and ranking: they run on the server.
- CartList.ListCart: prices are integers (cents). Python's float arithmetic on JSON numbers and its rounding are not modelled.
- CartList.ListCart: JSON values other than numbers and text count as text, where Python might add some of them, for example booleans.
- Command.ParseCommand: only ASCII digits count. The Unicode digits `str.isnumeric` also accepts are not modelled.
- Logging: output only.

## Findings

| source | as written | input that shows it | evidently intended | confidence | as-written member | corrected member |
|---|---|---|---|---|---|---|
| main.py:633-643 | The placeholder check compares the exact text before the trailing "/" is stripped. | "https://YOUR_GATEWAY_API.amazonaws.com/" is accepted and becomes the unedited placeholder gateway. | An unedited placeholder is rejected whether or not it ends with "/". | low; not executed | BaseUrl.PlaceholderWithSlashAccepted | BaseUrl.CheckGatewayUrl |
