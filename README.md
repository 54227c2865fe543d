# Score entry tool (登分小工具), modelled in Dafny

The tool keeps one score per seat for a closed list of 52 seat numbers. The
user types a four- or five-digit code. The first two digits are the seat and
the remaining two or three are the score, so `1025` gives seat 10 the score 25
and `45123` gives seat 45 the score 123. A code is accepted only if it is made
of digits, has the right length after surrounding blanks are stripped, and
names a seat the table holds.

The tool exists in two copies, and both are modelled:

- the Streamlit web copy (`app.py`), with a submit form, a clear button, a copy
  button that puts the scores on the clipboard through a JavaScript template
  literal, three counters and a quick-view grid ten seats wide;
- the console copy (`attached_assets/test_1762571090222.py`). It merges a saved
  JSON file into its table at start-up and then clears every value. Its
  `process_input` understands `exit`/`quit`, `show` and `copy`, and reads
  anything else as a code.

Modules, one per concern:

- `Seats`: the seat list and the ascending order `sorted(...)`.
- `Text`: `strip()`, `lower()`, `isdigit()`, `int()`, `str()`, `{:02d}`, `"\n".join` and its inverse.
- `CodeParser`: the code format and its decoding.
- `Store`: the table, the validated store, the copy list and the filled count.
- `Persistence`: the key conversion of `save_dict`/`load_dict`.
- `JsEscape`: the escaping done for the JavaScript template literal.
- `Grid`: the quick-view labels and rows.
- `WebApp`: the web session as the class `Scoreboard`.
- `ConsoleApp`: the console program as the class `ScoreConsole`.

Two behaviours are worth knowing:

- **The copies check seats differently.** The web copy checks a seat against
  `VALID_KEYS`. The console copy checks it against the keys of its dictionary,
  which can include seats brought in by the save file
  (`ConsoleApp.LoadedSeatAccepted`).
- **The list has 52 seats.** The literal in both copies lists 52 seat
  numbers (`Seats.ValidKeysShape`, `ConsoleApp.InitialNumbers`).

## Model

| member | source | states |
|---|---|---|
| Seats.ValidKeysShape | Deng-Fen-Xiao-Gong-Ju/app.py:9-14 | The seat list has 52 entries and is strictly ascending, so it holds no repeats. |
| Seats.ValidKeysRange | Deng-Fen-Xiao-Gong-Ju/app.py:9-14 | Every valid seat lies between 1 and 64, so two digits always name it. |
| Seats.NotListedBetween | Deng-Fen-Xiao-Gong-Ju/app.py:111 | A number strictly between two neighbouring list entries fails the `key not in VALID_KEYS` test. |
| Seats.SortedKeys | Deng-Fen-Xiao-Gong-Ju/app.py:141 | `sorted(keys)` is strictly ascending and has exactly the keys as elements, one entry per key. |
| Seats.SortedUnique | Deng-Fen-Xiao-Gong-Ju/app.py:141 | Two strictly ascending sequences with the same elements are equal, so the sorted order is the only one. |
| Seats.SortedValidKeys | Deng-Fen-Xiao-Gong-Ju/app.py:141 | `sorted(VALID_KEYS)` is the list as written. |
| Text.Strip | Deng-Fen-Xiao-Gong-Ju/app.py:101 | `strip()` returns a slice of the input that has only whitespace around it and neither starts nor ends with whitespace. |
| Text.StripPadded | Deng-Fen-Xiao-Gong-Ju/app.py:101 | Stripping whitespace padding from a core that neither starts nor ends with whitespace gives back exactly the core. |
| Text.StripIdempotent | Deng-Fen-Xiao-Gong-Ju/app.py:101 | Stripping twice gives the same result as stripping once. |
| Text.Lower | Deng-Fen-Xiao-Gong-Ju/attached_assets/test_1762571090222.py:126 | `lower()` keeps the length and maps each letter A-Z to its lower-case form. |
| Text.ZeroPad | Deng-Fen-Xiao-Gong-Ju/app.py:108-109 | The zero-padded digits of `n` have the requested width and read back as `n`. |
| Text.DigitsAreZeroPad | Deng-Fen-Xiao-Gong-Ju/app.py:108-109 | Any digit string is the zero-padded form of its own value, so leading zeros are the only thing `int()` drops. |
| Text.IntToStringRoundTrip | Deng-Fen-Xiao-Gong-Ju/app.py:140 | `int(str(i)) == i` for every integer, negative ones included. |
| Text.IntToStringInjective | Deng-Fen-Xiao-Gong-Ju/app.py:31 | Distinct integers get distinct `str()` forms, so saved member names never collide. |
| Text.Format02 | Deng-Fen-Xiao-Gong-Ju/app.py:273-275 | `{k:02d}` has at least two characters, is the two-digit zero-padded form for 0 to 99, and reads back as `k`. |
| Text.SplitJoin | Deng-Fen-Xiao-Gong-Ju/app.py:148 | Splitting a `"\n".join` of newline-free entries at newlines gives the entries back. |
| Text.JoinWithout | Deng-Fen-Xiao-Gong-Ju/app.py:148 | Joining entries that lack a character (other than the separator) yields text without that character. |
| CodeParser.Parse | Deng-Fen-Xiao-Gong-Ju/app.py:104-109 | A code is accepted exactly when it is all digits and four or five long. The seat is below 100 and the score has at most three digits. |
| CodeParser.ParseCodeText | Deng-Fen-Xiao-Gong-Ju/app.py:104-109 | Every seat below 100 with a two- or three-digit score, written out with zero padding, decodes back to the same seat and score. |
| CodeParser.ParsedIsCodeText | Deng-Fen-Xiao-Gong-Ju/app.py:104-109 | Every accepted code is the zero-padded encoding of its decoded seat and score. |
| CodeParser.ParseFourDigits | Deng-Fen-Xiao-Gong-Ju/app.py:75 | `1025` decodes to seat 10, score 25. |
| CodeParser.ParseFiveDigits | Deng-Fen-Xiao-Gong-Ju/app.py:76 | `45123` decodes to seat 45, score 123. |
| CodeParser.ParseLeadingZeros | Deng-Fen-Xiao-Gong-Ju/app.py:108-109 | `0102` is seat 1 score 2 and `99001` is seat 99 score 1: `int()` drops leading zeros. |
| CodeParser.ParseRejects | Deng-Fen-Xiao-Gong-Ju/app.py:104 | A code with a letter, or with 3, 6 or 0 characters, is a format error. |
| Store.Unset | Deng-Fen-Xiao-Gong-Ju/app.py:36-38 | `{k: None for k in keys}` has exactly the given keys, all unscored. |
| Store.Decide | Deng-Fen-Xiao-Gong-Ju/app.py:104-115 | A format error happens exactly when the code is malformed. An unknown-seat error names the parsed seat, which is not allowed. A store names the parsed seat and score, and the seat is allowed. |
| Store.RejectedLeavesTable | Deng-Fen-Xiao-Gong-Ju/app.py:104-113 | A rejected code leaves the table unchanged. |
| Store.StoredSetsOneSeat | Deng-Fen-Xiao-Gong-Ju/attached_assets/test_1762571090222.py:151-155 | An accepted code sets its seat to its score, keeps every other seat and adds or removes no seat. |
| Store.LastWriteWins | Deng-Fen-Xiao-Gong-Ju/app.py:115 | Of two stores to the same seat, the second one wins. |
| Store.ValueText | Deng-Fen-Xiao-Gong-Ju/app.py:140 | A copy-list entry is empty exactly for an unscored seat and never holds a line break. |
| Store.ReadValueText | Deng-Fen-Xiao-Gong-Ju/app.py:140 | A copy-list entry reads back as the seat's value. |
| Store.ExportValues | Deng-Fen-Xiao-Gong-Ju/app.py:140-141 | The copy list has one entry per seat, in the given order. Each entry reads back as that seat's value, is empty exactly when the seat is unscored, and holds no line break. |
| Store.CopyList | Deng-Fen-Xiao-Gong-Ju/attached_assets/test_1762571090222.py:134 | The copy list of a whole table has one entry per seat. |
| Store.CopyTextLines | Deng-Fen-Xiao-Gong-Ju/app.py:148 | The copied text splits at newlines back into the copy list. |
| Store.AllEmptyIffNothingFilled | Deng-Fen-Xiao-Gong-Ju/app.py:143-144 | The copy button is disabled exactly when no seat holds a score. |
| Store.FilledCountBounds | Deng-Fen-Xiao-Gong-Ju/app.py:250-259 | The filled count is at most the table size, and filled plus unfilled equals the table size. |
| Store.FilledCountAfterStore | Deng-Fen-Xiao-Gong-Ju/app.py:115 | A store raises the filled count by one if the seat was unscored, and leaves it unchanged otherwise. |
| Persistence.Members | Deng-Fen-Xiao-Gong-Ju/app.py:31 | One JSON member is written per seat listed. |
| Persistence.Save | Deng-Fen-Xiao-Gong-Ju/app.py:31 | `save_dict` writes one member per seat. |
| Persistence.LoadMembers | Deng-Fen-Xiao-Gong-Ju/app.py:22 | Loading the members written for a list of seats succeeds and gives exactly those seats with their values. |
| Persistence.LoadSave | Deng-Fen-Xiao-Gong-Ju/app.py:22-31 | `load_dict` reads back exactly the table `save_dict` wrote. |
| JsEscape.ReplaceChar | Deng-Fen-Xiao-Gong-Ju/app.py:150 | `replace(c, rep)` leaves no `c` when `rep` contains none. |
| JsEscape.ReplaceCharAppend | Deng-Fen-Xiao-Gong-Ju/app.py:150 | `replace` distributes over concatenation. |
| JsEscape.EscapeTemplateChar | Deng-Fen-Xiao-Gong-Ju/app.py:150 | On one character, the three replacements prefix a backslash to `\`, `` ` `` and `$`, and leave any other character alone. |
| JsEscape.EscapeTemplateIsEscapeEach | Deng-Fen-Xiao-Gong-Ju/app.py:150 | The three chained replacements equal escaping each character on its own: a later pass never touches what an earlier one inserted. |
| JsEscape.EscapeEachRoundTrip | Deng-Fen-Xiao-Gong-Ju/app.py:150 | JavaScript reads a per-character escape of text without a carriage return back as the text. |
| JsEscape.TemplateValueOfEscape | Deng-Fen-Xiao-Gong-Ju/app.py:150 | For text without a carriage return, the escaped text placed between backticks is the original text as JavaScript reads it. |
| Grid.Label | Deng-Fen-Xiao-Gong-Ju/app.py:271-275 | A label's mark is green exactly for a scored seat and white exactly for an unscored one. A blank follows the mark, and the rest reads back as the seat number. |
| Grid.Labels | Deng-Fen-Xiao-Gong-Ju/app.py:270-275 | There is one label per seat, in the order given. |
| Grid.FlattenAppend | Deng-Fen-Xiao-Gong-Ju/app.py:278 | Appending a row appends its items to the reading order. |
| Grid.ChunkRows | Deng-Fen-Xiao-Gong-Ju/app.py:266-282 | The grid loop keeps every item in order. Every row but the last is full, and the last is non-empty and no wider than a row. |
| Grid.GridRows | Deng-Fen-Xiao-Gong-Ju/app.py:266-282 | The grid holds the seat labels in order, ten to a row. |
| Grid.ChunkedRowCount | Deng-Fen-Xiao-Gong-Ju/app.py:277-282 | The grid has the number of rows the items need, the item count over the width rounded up, and no more. |
| Grid.FullRowsLength | Deng-Fen-Xiao-Gong-Ju/app.py:277-279 | Full rows hold rows times width items. |
| WebApp.InitialTable | Deng-Fen-Xiao-Gong-Ju/app.py:36-38 | `initialize_dict()` covers exactly the valid seats, with no score and a filled count of zero. |
| WebApp.CopyScript | Deng-Fen-Xiao-Gong-Ju/app.py:140-150 | There is nothing to copy exactly when no seat is scored. Otherwise the template literal's value is the joined copy list. |
| WebApp.CopyListFollowsList | Deng-Fen-Xiao-Gong-Ju/app.py:140-141 | For the session table, the copy list walks the seats in the order of `VALID_KEYS` as written, which is `sorted(VALID_KEYS)`. |
| WebApp.Stats | Deng-Fen-Xiao-Gong-Ju/app.py:250-259 | The counters show 52 seats in total, the filled count, and the unfilled count. Filled plus unfilled equals the total. |
| WebApp.BlankInputRejected | Deng-Fen-Xiao-Gong-Ju/app.py:100-105 | Non-empty input made only of blanks strips to nothing and is a format error. |
| WebApp.SubmitFourDigits | Deng-Fen-Xiao-Gong-Ju/app.py:75 | Submitting `1025` stores 25 for seat 10. |
| WebApp.SubmitFiveDigits | Deng-Fen-Xiao-Gong-Ju/app.py:76 | Submitting `45123` stores 123 for seat 45. |
| WebApp.SubmitUnknownSeat | Deng-Fen-Xiao-Gong-Ju/app.py:111-113 | Submitting `0325` is rejected because seat 3 is not in the list. |
| WebApp.Scoreboard.constructor | Deng-Fen-Xiao-Gong-Ju/app.py:40-49 | A new session starts with the cleared table. |
| WebApp.Scoreboard.Submit | Deng-Fen-Xiao-Gong-Ju/app.py:100-119 | Empty input does nothing. Otherwise the stripped input is judged against the valid seats and the table changes only by that outcome, so the table keeps exactly the valid seats. |
| WebApp.Scoreboard.Clear | Deng-Fen-Xiao-Gong-Ju/app.py:220-222 | The clear button resets the table to every valid seat unscored. |
| WebApp.Scoreboard.GridView | Deng-Fen-Xiao-Gong-Ju/app.py:266-282 | The quick-view grid holds the labels of all seats in ascending order, ten to a row. |
| ConsoleApp.InitialNumbers | Deng-Fen-Xiao-Gong-Ju/attached_assets/test_1762571090222.py:1-54 | The `numbers_dict` literal covers the same seats as the web copy's list, all unscored. |
| ConsoleApp.ShowLine | Deng-Fen-Xiao-Gong-Ju/attached_assets/test_1762571090222.py:131 | A `show` line starts with the seat, which reads back, followed by ` -> `. Then comes `-` exactly for an unscored seat, or otherwise the score, which reads back. |
| ConsoleApp.ShowLines | Deng-Fen-Xiao-Gong-Ju/attached_assets/test_1762571090222.py:128-131 | `show` prints one line per seat in ascending seat order. |
| ConsoleApp.ExitWords | Deng-Fen-Xiao-Gong-Ju/attached_assets/test_1762571090222.py:125-127 | `exit` or `quit`, in any letter case and with any surrounding blanks, ends the session. |
| ConsoleApp.CodesAreNotCommands | Deng-Fen-Xiao-Gong-Ju/attached_assets/test_1762571090222.py:125-147 | Input that strips to digits is never taken for a command and always reaches the code check. |
| ConsoleApp.CopyReply | Deng-Fen-Xiao-Gong-Ju/attached_assets/test_1762571090222.py:133-138 | `copy` reports nothing to copy exactly when no seat is scored. Otherwise the copied text splits back into the copy list. |
| ConsoleApp.LoadedSeatAccepted | Deng-Fen-Xiao-Gong-Ju/attached_assets/test_1762571090222.py:149-155 | The console accepts a seat outside the web list, such as 3, once the table holds it. |
| ConsoleApp.ResetAll | Deng-Fen-Xiao-Gong-Ju/attached_assets/test_1762571090222.py:98-99 | The start-up loop keeps every key and sets every value to `None`. |
| ConsoleApp.ScoreConsole.Startup | Deng-Fen-Xiao-Gong-Ju/attached_assets/test_1762571090222.py:93-100 | After start-up, the table holds the literal's seats plus those of a loadable save file, all unscored. |
| ConsoleApp.ScoreConsole.Enter | Deng-Fen-Xiao-Gong-Ju/attached_assets/test_1762571090222.py:145-157 | A code is judged against the table's own keys, and the table changes only by that outcome. |
| ConsoleApp.ScoreConsole.ProcessInput | Deng-Fen-Xiao-Gong-Ju/attached_assets/test_1762571090222.py:124-157 | The reply is the one the command order gives. `"exit"` is returned only for the exit words. Only a code changes the table, and no call adds or removes a seat. |

## Left out

- The Streamlit page is not modelled: layout, forms, reruns, session messages, the instructions, the start-up notice and the auto-focus script. Neither is the console's prompt and printing. These are presentation only.
- The web copy's "show all" table (app.py lines 226-247) is not modelled. It is presentation of the same sorted pairs that `ConsoleApp.ShowLines` lists.
- File I/O is not modelled. `save_dict` and `load_dict` are modelled on the contents of the JSON object, as a list of members. Each write after a change is not modelled, and a failing read is the `None` input of `ConsoleApp.LoadFile`.
- A save-file value that is not an integer or null is not modelled. `int(v)` converts some such values (`int(2.5) == 2`, `int("7") == 7`, `int(True) == 1`) and raises on others, where `load_dict` gives up. The model's member values are integers or null. The console sets every value to `None` straight after loading (test_1762571090222.py lines 98-99), so only a loaded file's keys reach the table.
- The clipboard is not modelled. `copy_to_clipboard` and the browser Clipboard API are foreign calls, so the model stops at the text handed to them.
- The console's `main` loop and its KeyboardInterrupt/EOF handling are I/O.
- Text.IsDigit: `isdigit()` and `int()` are modelled on ASCII digits only. Python's `isdigit()` also accepts other Unicode digits, some of which `int()` rejects. For example, `"²²²²"` passes the format check (app.py line 104, test_1762571090222.py line 145), and then `int("²²")` raises `ValueError`. The web copy then shows an exception. The console's `main` catches only `KeyboardInterrupt` and `EOFError` (line 167), so the program ends. The model's `BadFormat` for such input stands in for that crash.
- Text.Lower: `lower()` is modelled on ASCII letters only. The command test is still exact. The only non-ASCII characters whose lower-case form is ASCII are the Kelvin sign, which lowers to `k`, and `İ`, which lowers to `i` plus a combining dot; neither can turn input into `exit`, `quit`, `show` or `copy`.
- Text.ParseInt: it accepts an optional `-` followed by ASCII digits. Python's `int()` also takes `+`, `_` separators and surrounding blanks; those spellings never occur in files the program writes.
- The web form's `max_chars=5` limit is a widget property. Longer input is still handled here: it is rejected as a format error.
- Dictionary insertion order is not modelled. Persistence.Save writes the members in ascending seat order, while Python writes them in insertion order. In the console copy, `numbers_dict.update(_loaded)` (test_1762571090222.py line 95) appends unknown seats after 64, so a loaded seat 3 is written after 64. The table read back from members with distinct names does not depend on their order, and saved member names are distinct by `Text.IntToStringInjective`. This order independence is not proved here. Every listing sorts the keys.
- ConsoleApp.ResetAll: it clears the seats in an unspecified order where Python follows insertion order. The result is the same either way.
