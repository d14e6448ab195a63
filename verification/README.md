# Todo-Belanja market screen: list mirror and dialog state machine

The market screen (`app/market.tsx`) keeps a shopping list ("belanja") in a
local SQLite table. It also keeps an in-memory copy of that list, the
*mirror*, which it renders and patches after every change instead of
re-reading the table. Beside the mirror it holds an edit dialog: the
three text fields of the form, the id of the item being edited (`editId`,
or none) and whether the dialog is open.

This project models that state and every event that changes it, as pure
Dafny functions over an immutable `Screen` value:

- `decimal.dfy`, module `Decimal`: the price as the screen holds it (an
  integer or `NaN`). It defines `toString` and a `parseInt` restricted to
  canonical decimal text. It proves that `ParseInt` inverts `ToString` on
  every price, and that `ToString` inverts `ParseInt` on minimal text (no
  redundant leading zeros, no "-0").
- `mirror.dfy`, module `Mirror`: the item record and the two list
  operations. Update-by-id is the `map` of the save branch. Delete-by-id is
  the `filter` of the delete handler. The module proves their shape,
  order and uniqueness facts.
- `market.dfy`, module `Market`: the screen state and its transitions.
  These are Save (insert or update), Delete, Edit, Plus, Cancel/dismiss,
  keystrokes and Load. It also holds scenario lemmas that chain them.

Each store call (`runAsync`, `getAllAsync`) becomes a `StoreOutcome`
parameter, `Ok` or `Fail`. `Date.now()` becomes a parameter `now`.

Where the behaviour described for this screen and its code disagree, the
model follows the code:

- A mirror update runs only after its awaited store call returns. It sits
  inside the `try`, and the `catch` only logs. So a failed store call
  leaves the mirror and `editId` unchanged. The mirror is not updated
  unconditionally.
- The form is not reset after Save or Cancel. `editId` is cleared only by
  a successful update, so it survives Cancel.
- A new item gets the clock reading as its id, not the id the table assigns.
  It is appended at the end of the mirror, while loading orders rows by
  descending id.
- `if (editId)` is JavaScript truthiness, so an `editId` of 0 takes the
  insert branch.

## Model

| member | source | states |
|---|---|---|
| Market.AddBelanja | app/market.tsx:63-111 | On store failure the state is unchanged. On a successful update (truthy `editId`), the list keeps its length and id sequence. Items with that id get the form's title, category and parsed price; every other item is unchanged. `editId` becomes none and the form is kept. On a successful insert, the old list is a prefix and one item is added last, with the clock id and the form's fields; `editId` and the form are kept |
| Market.DeleteBelanja | app/market.tsx:113-120 | On store failure the state is unchanged. On success the list holds exactly the old items whose id differs. It is a subsequence of the old list, shorter by the number of items with that id. `editId`, the form and the dialog are not touched |
| Market.HandleEdit | app/market.tsx:122-130 | The form gets the item's title and category, and the price's printed text: minimal decimal digits for an integer, "NaN" for `NaN`; that text parses back to the item's price. `editId` becomes the item's id and the dialog opens. The list is unchanged |
| Market.PressPlus | app/market.tsx:152-154 | Opens the dialog; the list, `editId` and the form are unchanged |
| Market.CloseDialog | app/market.tsx:254 | Cancel (and the dialog's dismiss at line 214) closes the dialog; the list, `editId` and the form are unchanged |
| Market.PressSave | app/market.tsx:256-258 | The dialog ends closed whatever the store call does. Otherwise Save is the save operation applied to the current state |
| Market.ChangeText | app/market.tsx:222-245 | A keystroke replaces exactly one form field; the list, `editId` and the dialog are unchanged |
| Market.LoadBelanja | app/market.tsx:45-55 | On success the list becomes the returned rows; on failure nothing changes. The form, `editId` and the dialog are untouched either way |
| Market.EditThenSaveRoundTrip | app/market.tsx:66-67 | Edit followed by Save with no keystrokes leaves the list unchanged, clears `editId` and closes the dialog. This needs a nonzero id and every item sharing that id to be the edited item |
| Market.EditZeroIdAppends | app/market.tsx:67 | Editing an item with id 0 and saving appends a copy (with the clock id) instead of updating it, and `editId` stays 0. This is the boundary of the edit round trip, not a reachable fault: table ids start at 1 (line 34) and new ids are clock readings (line 101) |
| Market.CancelKeepsPendingEdit | app/market.tsx:89 | Edit, Cancel, Plus returns to the state Edit produced. The following Save is an update: the length stays the same and `editId` is cleared |
| Market.InsertKeepsForm | app/market.tsx:90-107 | Two inserts in a row (Save, Plus, Save) append two items with the same form fields, because the form is not reset |
| Market.InsertPriceParsing | app/market.tsx:66 | An inserted item's price is an integer when the price text is canonical, and prints back as that text when the text is minimal. Empty text or text starting with a letter gives `NaN` |
| Market.TypeThenSaveAppends | app/market.tsx:222-245 | With no item being edited, typing title, category and price and saving appends exactly the item with the clock id, the typed title and category, and the parsed price. The form keeps the typed text and the dialog ends closed |
| Market.FirstSaveOnFreshScreen | app/market.tsx:18-28 | From the freshly mounted state (empty list, no `editId`, closed dialog, empty form), Plus, typing "Milk", "Dairy", "25000" and Save leaves exactly one item, priced at the integer 25000 |
| Market.DeleteWhileEditingDropsSave | app/market.tsx:115-116 | Opening an item, closing the dialog and deleting that item keeps `editId`. A later Save then updates nothing: the list stays as the deletion left it, and `editId` is cleared |
| Mirror.UpdateById | app/market.tsx:77-87 | Same length, same id at every position. Items with the id get the new title, category and price; all other items are unchanged |
| Mirror.UpdateWithOwnFields | app/market.tsx:77-87 | Writing back an item's own fields is the identity when every item sharing its id is that item |
| Mirror.UpdateIdempotent | app/market.tsx:77-87 | Applying the same update twice equals applying it once |
| Mirror.RemoveById | app/market.tsx:116 | An item is in the result exactly when it was in the list and its id differs. The length drops by the number of items with the id |
| Mirror.RemoveIsSubseq | app/market.tsx:116 | The result of deleting is a subsequence of the list, so the remaining items keep their relative order |
| Mirror.RemoveIsUniqueFilter | app/market.tsx:116 | Any subsequence of the list that avoids the id and has the filtered length equals the result of deleting. So deleting is exactly the order-preserving filter |
| Mirror.RemoveAppend | app/market.tsx:116 | Deleting from a concatenation is concatenating the deletions |
| Mirror.RemoveAbsent | app/market.tsx:116 | Deleting an id no item carries leaves the list unchanged |
| Mirror.RemoveIdempotent | app/market.tsx:116 | Deleting the same id twice equals deleting it once |
| Decimal.ToString | app/market.tsx:126 | The text of an integer is canonical and minimal (no leading zeros, no "-0"), with a minus sign exactly for negatives. `NaN` prints as non-numeric text |
| Decimal.ParseInt | app/market.tsx:66 | The result is an integer exactly when the text is canonical. Its sign follows the leading minus |
| Decimal.ParseToStringRoundTrip | app/market.tsx:126 | Parsing the printed price gives the price back, for integers and for `NaN` |
| Decimal.ParseLeadingZero | app/market.tsx:66 | A redundant leading zero after the optional minus sign does not change the parsed value ("007" parses as "07" and "7" do, "-007" as "-7") |
| Decimal.ParseNegativeZero | app/market.tsx:66 | "-0" parses to the integer 0 |
| Decimal.LeadingZero | app/market.tsx:66 | Prefixing a digit string with "0" keeps its value |
| Decimal.ToStringParseRoundTrip | app/market.tsx:66 | Printing the parsed value of minimal text gives the text back |
| Decimal.NatToStringParse | app/market.tsx:126 | A digit string without redundant leading zeros is what printing its value produces |
| Decimal.ParseNatToString | app/market.tsx:66 | Parsing the digits of a natural number gives the number |

## Left out

- The SQLite calls are foreign I/O: opening the database, `CREATE TABLE`, and the `SELECT`/`UPDATE`/`INSERT`/`DELETE` statements. Each mutation becomes a `StoreOutcome` parameter. `initDatabase` (lines 30-43) changes no screen state, because it only logs on failure, so it has no transition.
- Market.LoadBelanja: takes the returned rows as a parameter. The descending-id order comes from the SQL text, and the model cannot see that.
- The row the table actually writes is not modelled. So the model does not relate the mirror to the table: not the clock id against the assigned id, and not an `UPDATE` that matches no row.
- Async execution and the double-submit race: each event is atomic.
- `Date.now()` is a parameter. Ids in the mirror are not assumed unique, because the code does not guarantee it.
- Decimal.ParseInt: only canonical `-?[0-9]+` text parses to a number. Every other text gives `NaN`. JavaScript's `parseInt` would also read leading whitespace, a `+` sign, a numeric prefix followed by junk (`"12abc"` and `"25.000"` are 12 and 25), and a `0x` prefix as hexadecimal (`"0x1A"` is 26). Canonical text beyond 2^53 parses to an exact integer here, where JavaScript rounds it to the nearest double, and text of about 309 digits or more parses to `Infinity` there.
- Market.InsertPriceParsing: says nothing about text that is not canonical yet starts with a digit, a sign or a space (`" 5"`, `"+5"`, `"25.000"`), because the model's `ParseInt` gives `NaN` there and JavaScript gives an integer.
- Decimal.ParseToStringRoundTrip: in the program the round trip holds only for prices with magnitude below 10^21. From 10^21 up, `toString` prints the exponent form ("1e+21"), which `parseInt` reads back as 1. `Infinity` prints as "Infinity", which parses to `NaN`. A user can reach the first by typing 22 or more digits and the second by typing about 309. The model's prices are unbounded integers printed in plain decimal, so the lemma holds for all of them.
- Market.EditThenSaveRoundTrip: for the same reason, opening and saving an item without a keystroke leaves its price unchanged in the program only when its magnitude is below 10^21. A larger price is rewritten to the leading digit of its exponent form, and `Infinity` becomes `NaN`.
- The store outcome is a free parameter. In particular a successful insert or update with a `NaN` price is kept possible, although the table declares `harga INTEGER NOT NULL` (line 37), so binding `NaN` most likely makes the statement throw and leaves the state unchanged.
- Decimal.ToString: models integers and `NaN` only. Prices beyond 2^53 (lost precision) and `toString`'s exponent form from 1e21 up are not modelled. Integers are unbounded.
- Rendering, styling, `Alert` and `console` calls (lines 132-267 apart from the handlers above) are UI and logging.
