# Bid data core: cell normalisers and the bid collection

This project models two parts of the bid back end.

- **`BidUtils`** (`app/utils/bid_utils.py`): the tolerant normalisers that turn spreadsheet cells into typed bid fields. These are `parse_datetime`, `parse_integer`, `parse_ratio`, `parse_string`, `parse_optional_float` and `parse_optional_int`.
- **`BidCollection`** (`app/collections/bid_collection.py`): the MongoDB `bid` collection. It covers insert, duplicate check, the upsert-based bulk load with its `(inserted, updated, updated_list)` report, paging, find by id and by announcement number, update, delete and count.

Modules, in dependency order:

| module | file | what it holds |
|---|---|---|
| `Wrappers` | `wrappers.dfy` | `Option` and `Result` |
| `Text` | `text.dfy` | `str.strip`, `replace(c, "")`, `lower`, `isdigit`, `" ".join(s.split())` |
| `Numbers` | `numbers.dfy` | Python floats as `Finite(real) \| NaN \| Infinity`; the `float()` text grammar and the whitespace it skips; `int()` truncation; `round(x, 5)` with round-half-even |
| `NumberText` | `number_text.dfy` | `str()` of ints and floats (`repr`), and the proofs that `float()` reads that text back |
| `Strptime` | `strptime.dfy` | `datetime.strptime` for the three formats used, as backtracking regex matching of CPython's directive patterns followed by a calendar check |
| `DateFormat` | `date_format.dfy` | `strftime` of the same formats, and the proofs that `strptime` reads back what it writes |
| `BidUtils` | `bid_utils.dfy` | the six normalisers, over a `Cell` that is missing, an `int`, a float or a `str` |
| `NumberExamples` | `number_examples.dfy` | two texts on which the normalisers part ways: `"1e400"`, past the double range, and `"\x1c1"`, with a separator `strip()` removes and `float()` keeps |
| `DateExamples` | `date_examples.dfy` | the documented date examples as concrete lemmas, including the docstring's one-digit month and double space |
| `ObjectIds` | `object_id.dfy` | `bson.ObjectId(text)` and `str(oid)` as 24 hex digits |
| `BidCollection` | `bid_collection.dfy` | the store, as a sequence of documents in natural order plus an id counter, and every single-document call |
| `BulkUpsert` | `bulk_upsert.dfy` | `bulk_insert_bids`: an ordered `bulk_write` of keyed `UpdateOne(..., upsert=True)` and the report built from its result |

Each database call is a pure function from a store to a new store and the call's answer.
The announcement number index is not unique (`unique=False`).
So the model lets several documents share a key, and every keyed lookup returns the first one in natural order.

Facts about the code that the model keeps, and that a reader might not expect:

- The announcement number index is created with `unique=False` (`bid_collection.py:14`), and `insert_bid` (`bid_collection.py:42-46`) inserts without a duplicate check. `InsertKeepsDuplicates` states this.
- `parse_ratio` rounds with `round(x, 5)` (`bid_utils.py:91`, `bid_utils.py:94`). The result has at most five decimal places, not always five, and NaN and infinities pass through unchanged.
- `find_bid_by_id`, `update_bid` and `delete_bid` catch every exception (`bid_collection.py:158`, `bid_collection.py:200`, `bid_collection.py:218`). A malformed id therefore answers `None` or `False`, exactly as an unknown id does.
- `updated_list` is a list comprehension over the batch keys (`bid_collection.py:116-120`). It keeps batch order, with repeats (`ReUpload`, `UpdatedListIsOldKeys`).
- `find_all_bids` returns only the page (`bid_collection.py:139-141`), with no total count.
- `update_bid` `$set`s every field of a complete record except `_id` (`bid_collection.py:193-198`). The stored record therefore becomes the given one.
- Decimal text beyond the double range reads as an infinity. For `"1e400"`, `parse_integer` and `parse_optional_int` let `int()`'s OverflowError escape (`bid_utils.py:73`, `bid_utils.py:129`), while `parse_ratio` and `parse_optional_float` return the infinity (`HugeTextOverflows`).

## Model

| member | source | states |
|---|---|---|
| BidUtils.CleanedShape | app/utils/bid_utils.py:70 | the comma-stripped, trimmed text that `parse_integer` converts has no comma and no outer whitespace |
| BidUtils.FloatToInt | app/utils/bid_utils.py:73 | `int()` of a float truncates toward zero; it fails exactly on non-finite values, with OverflowError exactly for an infinity |
| BidUtils.ParseInteger | app/utils/bid_utils.py:58-75 | a missing cell is 0, an `int` cell itself, a float cell truncated toward zero; text is `int(float(...))` of its cleaned form, 0 when `float()` rejects it, and OverflowError, the only error, exactly when `float()` reads it as an infinity |
| BidUtils.ParseIntegerOfInt | app/utils/bid_utils.py:63-67 | an `int` cell of magnitude at most 2^53 comes back unchanged from both `parse_integer` and `parse_optional_int` |
| BidUtils.OptionalIntOfFloat | app/utils/bid_utils.py:122-129 | `parse_optional_int` truncates a float cell toward zero, going through its `str()` text |
| BidUtils.ShortText | app/utils/bid_utils.py:122-128 | "" and "-", before or after cleaning, are no number, and `parse_optional_int` answers None for them |
| BidUtils.ParseOptionalInt | app/utils/bid_utils.py:117-131 | a missing cell is None; a present cell is None exactly when it is "" or "-", its cleaned text is "" or "-", or `float()` rejects that text; a number is `int(float(cleaned))`; OverflowError is the only error |
| BidUtils.ParseIntegerIsOptionalOrZero | app/utils/bid_utils.py:58-131 | on every cell `parse_integer` equals `parse_optional_int` with None read as 0, and both let the same OverflowError escape |
| BidUtils.RoundFloat | app/utils/bid_utils.py:91 | `round(x, 5)` has at most five decimal places and lies within half a unit of the fifth place of `x`; NaN and infinities are unchanged |
| BidUtils.ParseRatio | app/utils/bid_utils.py:78-96 | every ratio has at most five decimal places, whatever the cell |
| BidUtils.ParseRatioRounded | app/utils/bid_utils.py:87-96 | rounding a parsed ratio to five places again changes nothing |
| BidUtils.ParseRatioIsRoundedOptional | app/utils/bid_utils.py:87-114 | on cells whose text has no comma and none of the separators U+001C to U+001F, `parse_ratio` is `parse_optional_float` rounded to five places, with None read as 0.0 |
| BidUtils.ParseString | app/utils/bid_utils.py:99-103 | a missing cell gives ""; any other result has no whitespace at either end |
| BidUtils.ParseStringTrims | app/utils/bid_utils.py:99-103 | the result of a present cell is a slice of its `str()` text with only whitespace cut from either side |
| BidUtils.ParseStringIdempotent | app/utils/bid_utils.py:99-103 | normalising an already normalised string changes nothing |
| BidUtils.ParseStringOfNumber | app/utils/bid_utils.py:103 | a number is kept as its `str()` text, which has no outer whitespace to strip |
| BidUtils.OptionalFloatOfNumberText | app/utils/bid_utils.py:106-114 | `parse_optional_float` reads a number's `str()` text back as the number's own value |
| BidUtils.OptionalIntOfNumberText | app/utils/bid_utils.py:117-131 | `parse_optional_int` gives the same answer for a number and for its `str()` text |
| BidUtils.ParseStringKeepsNumbers | app/utils/bid_utils.py:99-131 | a number that `parse_string` keeps as text still reads back to the same float and the same integer |
| BidUtils.ParseOptionalFloat | app/utils/bid_utils.py:106-114 | None exactly for a missing cell, "" or text `float()` rejects; an `int` or float cell is its own value; other text is what `float()` reads, skipping only the whitespace `float()` itself skips |
| BidUtils.CommaText | app/utils/bid_utils.py:87-114 | text with a comma is None to `parse_optional_float`, while `parse_ratio` reads it as the same text without its commas |
| BidUtils.SeparatorText | app/utils/bid_utils.py:108-114 | text holding one of the separators U+001C to U+001F is None to `parse_optional_float` |
| NumberText.CommaNeverFloat | app/utils/bid_utils.py:112 | `float()` rejects every text holding a comma |
| NumberText.SeparatorNeverFloat | app/utils/bid_utils.py:112 | `float()` rejects every text holding one of U+001C to U+001F, even at an end, where `strip()` would remove it |
| NumberExamples.HugeTextOverflows | app/utils/bid_utils.py:58-131 | for `"1e400"`, `parse_integer` and `parse_optional_int` raise OverflowError, and `parse_ratio` and `parse_optional_float` give positive infinity |
| NumberExamples.SeparatorAtEnd | app/utils/bid_utils.py:87-114 | for `"\x1c1"`, `parse_ratio` gives 1.0 (its `strip()` removes the separator) while `parse_optional_float` gives None |
| BidUtils.ParseDatetime | app/utils/bid_utils.py:13-55 | every accepted date is a real calendar date with a valid clock time; the NaN error is raised exactly for a missing cell |
| BidUtils.BlankNeverDate | app/utils/bid_utils.py:18-25 | a missing cell is rejected as NaN, and text that strips to "", "nan" in any case, or "-" is rejected as an invalid string |
| BidUtils.DigitsNeverDate | app/utils/bid_utils.py:27-55 | all-digit text is never a date: under 8 digits it is too short, otherwise no format fits |
| BidUtils.IntegerNeverDate | app/utils/bid_utils.py:21-55 | an integer cell is never a date |
| BidUtils.DatetimeFormatsOnly | app/utils/bid_utils.py:33-55 | an accepted date is what one of the three formats reads from the stripped text: the short format when it has `-` and `:`, otherwise the 12-hour and then the 24-hour dotted format after whitespace collapse; dotted text neither reads, and text with neither shape, fail as an unknown format |
| BidUtils.DashColonShortOnly | app/utils/bid_utils.py:33-41 | text with both `-` and `:` is read by `%y-%m-%d %H:%M` alone: the call succeeds exactly when that format does, with its value, and fails with the short-format error otherwise |
| BidUtils.ShortBranch | app/utils/bid_utils.py:34-37 | stripped text with `-` and `:` that the short format reads gives that date |
| BidUtils.Dotted12Branch | app/utils/bid_utils.py:44-48 | dotted text that the 12-hour format reads, after whitespace runs are collapsed, gives that date |
| BidUtils.Dotted24Branch | app/utils/bid_utils.py:44-53 | dotted text that only the 24-hour format reads gives that date, after the 12-hour attempt fails |
| BidUtils.ShortDateRoundTrip | app/utils/bid_utils.py:33-37 | every minute from 1969 to 2068 written as `YY-MM-DD HH:MM` is read back as itself |
| BidUtils.Dotted12DateRoundTrip | app/utils/bid_utils.py:43-48 | every second of the years 1 to 9999 written as `YYYY.MM.DD hh:MM:SS AM/PM` is read back as itself |
| BidUtils.Dotted24DateRoundTrip | app/utils/bid_utils.py:43-53 | every second of the years 1 to 9999 written as `YYYY.MM.DD HH:MM:SS` is read back as itself, after the 12-hour format has failed on it |
| DateExamples.ShortExample | app/utils/bid_utils.py:16 | the documented "22-03-11 10:00" is 2022-03-11 10:00:00 |
| DateExamples.DottedExample | app/utils/bid_utils.py:43-48 | "2024.01.18 10:00:00 AM" is 2024-01-18 10:00:00 |
| DateExamples.DocstringExample | app/utils/bid_utils.py:16 | the docstring's own "2024.1.18  10:00:00 AM" (one-digit month, two spaces) is 2024-01-18 10:00:00, read by the 12-hour format after the whitespace collapse |
| DateExamples.DocExampleCollapsed | app/utils/bid_utils.py:46-47 | `" ".join(s.split())` turns the docstring example's double space into one |
| DateExamples.ShortMonthLeads | app/utils/bid_utils.py:48 | a one-digit month followed by `.` is captured by `%m`'s one-digit alternative after the two-digit ones fail |
| Strptime.Parse | app/utils/bid_utils.py:36 | `datetime.strptime` accepts only text that makes a valid date and time |
| DateFormat.ParseFormat | app/utils/bid_utils.py:36 | `strptime` reads back what the same format writes, for every valid date the format can express |
| DateFormat.Dotted24Not12 | app/utils/bid_utils.py:48-51 | the 12-hour format rejects every 24-hour dotted text, so the fallback is reached |
| Text.StripIdempotent | app/utils/bid_utils.py:21 | `strip()` applied twice is `strip()` applied once |
| Text.CollapseJoined | app/utils/bid_utils.py:47 | `" ".join(s.split())` leaves single-spaced words unchanged |
| Numbers.Round5Idempotent | app/utils/bid_utils.py:91 | `round(round(x, 5), 5) == round(x, 5)` |
| NumberText.IntTextRoundTrip | app/utils/bid_utils.py:73 | `float(str(i))` is `i` for every integer of magnitude at most 2^53 |
| NumberText.ReprRoundTrip | app/utils/bid_utils.py:94 | `float(repr(f))` is `f` for every finite float in the double range |
| ObjectIds.IdTextRoundTrip | app/collections/bid_collection.py:156 | `ObjectId(str(oid))` is `oid` |
| ObjectIds.ParsedIdText | app/collections/bid_collection.py:156 | an accepted id text is its id's `str()` up to letter case |
| BidCollection.FirstWithKey | app/collections/bid_collection.py:173-175 | a keyed `find_one` returns the first document in natural order carrying the key, and None exactly when none does |
| BidCollection.PositionOfId | app/collections/bid_collection.py:156 | a `find_one` by `_id` returns the first document with that id, and None exactly when none has it |
| BidCollection.InsertBid | app/collections/bid_collection.py:42-46 | `insert_bid` appends the record under an id not in use and keeps ids unique |
| BidCollection.InsertThenFind | app/collections/bid_collection.py:42-46 | the id `insert_bid` returns, written as text, finds exactly the inserted record |
| BidCollection.InsertKeepsDuplicates | app/collections/bid_collection.py:14 | an insert with an existing key is stored anyway: the key's count and the collection's count both grow by one, and the duplicate check holds |
| BidCollection.CheckDuplicate | app/collections/bid_collection.py:60-63 | the check is true exactly when some document carries the key |
| BidCollection.DuplicateIffFound | app/collections/bid_collection.py:60-63 | the duplicate check holds exactly when a find by the same key returns a document |
| BidCollection.FindBidByAnnouncementNumber | app/collections/bid_collection.py:173-176 | the answer is a stored document with that key, and None exactly when no document has it |
| BidCollection.FindBidById | app/collections/bid_collection.py:153-159 | the answer is a stored document with the id the text spells; it is None exactly when the text is no ObjectId or no document has that id |
| BidCollection.UpdateBid | app/collections/bid_collection.py:189-201 | the answer is true exactly when the id finds a document whose record differs from the new one; when false nothing changes; ids, order and count are kept |
| BidCollection.UpdateThenFind | app/collections/bid_collection.py:189-201 | after an update by an existing id, a find by that id returns the same id with the new record; every other document is unchanged and ids stay unique |
| BidCollection.DeleteBid | app/collections/bid_collection.py:213-219 | the answer is true exactly when the text is an ObjectId some document has; then a document with that id is removed and the others keep their order; when false nothing changes |
| BidCollection.DeleteThenGone | app/collections/bid_collection.py:213-219 | after a delete the id finds nothing, a second delete answers false, and ids stay unique |
| BidCollection.FindAllBids | app/collections/bid_collection.py:139-141 | a negative skip or limit is an error; otherwise the page is the part of the documents after `skip`, of length `min(limit, remaining)` |
| BidCollection.PagesConcat | app/collections/bid_collection.py:139-141 | the page of `a + b` documents is the page of `a` followed by the next page of `b` |
| BidCollection.FirstPageIsAll | app/collections/bid_collection.py:139-141 | from the start, a limit at least the collection size lists every document in order |
| BulkUpsert.Upsert | app/collections/bid_collection.py:91-97 | a keyed upsert creates a document under the next id exactly when the key is new, otherwise overwrites the first document with the key and keeps its id; afterwards the key finds the record; every other document is unchanged |
| BulkUpsert.UpsertOtherKeys | app/collections/bid_collection.py:91-97 | an upsert does not change what any other key finds |
| BulkUpsert.UpsertKeys | app/collections/bid_collection.py:91-97 | an upsert adds the record's key to the store's keys and no other key |
| BulkUpsert.UpsertAll | app/collections/bid_collection.py:86-104 | the ordered bulk write yields one outcome per record, keeps every document's position, id and key, and keeps ids unique |
| BulkUpsert.BulkInsertBids | app/collections/bid_collection.py:66-126 | the bulk load keeps ids unique and keeps every existing document's position, id and key |
| BulkUpsert.BulkEmpty | app/collections/bid_collection.py:77-78 | an empty batch changes nothing and reports `(0, 0, [])` |
| BulkUpsert.CountsAddUp | app/collections/bid_collection.py:122-124 | each operation is counted either as upserted or as matched |
| BulkUpsert.CreatedPerNewKey | app/collections/bid_collection.py:104 | exactly one document is created per key the store did not have, however often the batch repeats it |
| BulkUpsert.FoundKeysAreNew | app/collections/bid_collection.py:106-112 | looking up the upserted ids gives exactly the batch keys the store did not have |
| BulkUpsert.BulkReportShape | app/collections/bid_collection.py:104-126 | for a non-empty batch, inserted plus updated is the batch size, inserted is the number of new keys, the store grows by inserted, and the list is the batch keys minus the new ones, in order |
| BulkUpsert.UpdatedListIsOldKeys | app/collections/bid_collection.py:114-120 | `updated_list` is a subsequence of the batch keys and holds a key exactly when the batch has it and the store already had it |
| BulkUpsert.DropIsSubsequence | app/collections/bid_collection.py:116-120 | the list comprehension keeps the order of the kept keys and keeps exactly the keys not excluded |
| BulkUpsert.ReUpload | app/collections/bid_collection.py:104-126 | when every key already exists, the report is `(0, len(batch), batch keys in order)` |
| BulkUpsert.NewKeyTwice | app/collections/bid_collection.py:104-126 | a new key given twice is inserted once and matched once, the updated list is empty, and the key finds the second record under the new id |
| BulkUpsert.LastWriteWins | app/collections/bid_collection.py:86-104 | after the writes, a batch key finds the last record the batch gives for it, a key the store had keeps its document's id, and other keys find what they found before |
| BulkUpsert.BulkLastWriteWins | app/collections/bid_collection.py:66-126 | the same for the whole call |

## Left out

- Python floats are held as exact decimals, namely the value their `repr` shows. Binary rounding of doubles is not modelled. Float cells are finite: pandas turns a NaN cell into a missing cell, and an infinite float cell is not modelled.
- `bool`, `datetime` and other non-`str` objects as cells are not modelled. Only missing cells, `int`, `float` and `str` are. The `TypeError` branches of the handlers are unreachable for these.
- `float()` of non-ASCII decimal digits is not modelled: CPython turns them into ASCII digits first, and the model rejects them. Neither is `isdigit()` on non-ASCII digits. Whitespace is modelled per function: `strip()` and `split()` remove every `isspace()` character, while `float()` skips ASCII `\t` to `\r`, space, and non-ASCII whitespace, but not the separators U+001C to U+001F.
- BidUtils.ParseRatioIsRoundedOptional: stated for text without the separators U+001C to U+001F. `parse_ratio` strips them from the ends before `float()`, while `parse_optional_float` hands them to `float()`, which rejects them; `NumberExamples.SeparatorAtEnd` shows "\x1c1" giving 1.0 and None.
- Strptime.Parse: `\d` in CPython's directive patterns matches every Unicode decimal digit, and `int()` reads them; the model's digit class (`AnyDigit`) holds only `0`-`9`, so dates written with other scripts' digits are rejected here but accepted by Python.
- `int` cells are bounded by 2^53 in magnitude (the `CellInt` type). Above it, `parse_optional_int` goes through `float(str(i))` and loses precision, `float()` of an int of 2^1024 - 2^970 or more raises OverflowError in `parse_ratio` and `parse_optional_float`, and `str()` of an int of over 4300 digits raises ValueError in `parse_string`.
- NumberText.IntTextRoundTrip: stated for integers of magnitude at most 2^53 only; above that, `float(str(i))` is the nearest double, not `i`.
- BidUtils.ParseIntegerOfInt: stated for `int` cells of magnitude at most 2^53 only; above that, `parse_optional_int` answers the nearest double's integer while `parse_integer` answers `i`.
- BidUtils.ParseIntegerIsOptionalOrZero: holds for the modelled cells only; for an `int` cell above 2^53 the two functions can differ by the rounding just named.
- Float cells lie in the double range (the `CellFloat` type). Decimal text is read as its exact value, or as an infinity at or beyond 2^1024 - 2^970; the binary rounding of other text (as in "9007199254740993") and underflow toward zero are not modelled.
- `%p` is matched as the C locale's `AM`/`PM`, case-insensitively. Other locales are not modelled.
- The text of the `ValueError` messages is not modelled. The model keeps only which error is raised, plus `strptime`'s reason for the short format.
- `ObjectId` built from 12 raw bytes, or from an existing `ObjectId`, is not modelled. Ids are the numbers below 16^24. The store's id counter is unbounded, and only `InsertThenFind` needs it below 16^24.
- New ids are handed out in increasing order. Real ObjectIds carry a timestamp and a random part. The model relies only on uniqueness.
- Natural order is taken to be insertion order, with deleted documents removed in place.
- `app/documents/bid_document.py` and the `_id` field of a `BidDocument` are not part of this model. `insert_bid` is modelled with a fresh id for every insert. A caller-supplied `_id` that collides would make the driver raise `DuplicateKeyError`.
- `_parse` is the identity on stored records. The `KeyError` it raises for a document with a missing field cannot happen, because every document is written with all nineteen fields.
- BidCollection.FindAllBids: `limit=0` is modelled as Motor's `to_list(length=0)`, which gives an empty list. The driver's defaults and its `batch_size` are not modelled.
- BidCollection.CountAllBids: it carries no contract of its own. `InsertKeepsDuplicates` and `BulkReportShape` state how it changes.
- `create_indexes` is not modelled as a call. Its one effect, a non-unique index, is why keys may repeat.
- Concurrency between calls, network and database failures, and the asynchronous driver are not modelled. Each call is atomic, and a failed connection is outside the model.
- The record parser that builds a `BidRecord` from a spreadsheet row, and the service and router layers, are not modelled.
