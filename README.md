# Budget tracker: a verified model

This project models the core of a small command-line budget tracker (`budget_tracker.py`).
The tracker keeps a budget and a list of expense records. Each record has a description and an
amount. From a text menu it adds, deletes and edits records and changes the budget. It shows a
summary in a text box framed with full-block characters, and it measures the visible width of
coloured text by stripping ANSI control sequences.

The model has five modules:

- `Expenses` (`expenses.dfy`)
  - the `Expense` record, `Total` and `Balance`;
  - the pure list changes the dialogues make: `RemoveAt` and `Apply`.
- `Ansi` (`ansi.dfy`)
  - `strip_ansi` as a left-to-right scanner over the control-sequence grammar of section 5.4 of
    ECMA-48: an introducer (`0x9B` or `ESC [`), parameter bytes `0x30-0x3F`, intermediate bytes
    `0x20-0x2F`, and one final byte `0x40-0x7E`;
  - the scanner cuts the text into pieces (whole control sequences and kept characters);
  - it is proved to produce exactly the leftmost, non-overlapping tokenization a regular-expression
    substitution produces, and that tokenization is proved unique.
- `Boxer` (`boxer.dfy`)
  - `TextBoxer` as a value with `Add` (the tracker's `+`);
  - `Print` is a method whose loop builds the rows the box would write, top border first.
- `Prompt` (`prompt.dfy`)
  - the program's input is a scripted sequence of lines; each prompt consumes some of them;
  - every number prompt and yes/no question is a retry loop, specified by `FirstAccepted` (the first acceptable line and what
    follows it) and carried out by the method `AskUntil`;
  - `YesOrNo` is the confirmation question.
- `Tracker` (`tracker.dfy`)
  - each dialogue (`add_expense`, `select_expense`, `delete_budget_details`,
    `edit_budget_details`) is first a function of the state and the script: what it asks, what it
    changes, and the lines it leaves unread;
  - the class `Ledger` holds the budget and the list of expenses and changes them in place;
  - its methods carry out the same dialogues step by step and are proved equal to those functions;
  - `Dispatch` is one choice of the main menu, and `Run` is the whole session.

Running out of input models the uncaught `EOFError` of the Python program. It ends the session without saving.
Every change a dialogue makes comes after its last read, so running out of input in mid-dialogue
changes nothing. Number parsing (`float(...)` and `int(...)`) is a parameter: `parseFloat` and
`parseInt` say, for each line, whether it parses and to which value. Amounts are exact reals.

## Model

| member | source | states |
|---|---|---|
| Expenses.TotalConcat | budget_tracker.py:50-51 | The total of two lists laid end to end is the sum of their totals. `Total` is the left-to-right sum of the amounts, starting from 0. |
| Expenses.TotalsOfExamples | budget_tracker.py:50-55 | An empty list totals 0. 10 + 5.5 totals 15.5. A budget of 100 leaves 70 after 30, and a negative balance of -50 after 150. |
| Expenses.BalanceAppend | budget_tracker.py:54-55 | Appending an entry lowers the balance (budget minus total) by exactly its amount. |
| Expenses.RemoveAt | budget_tracker.py:100 | Removing index i shortens the list by one. Entries before i stay in place and later ones shift down by one. The multiset of entries loses exactly the removed one. |
| Expenses.BalanceRemoveAt | budget_tracker.py:100 | Removing an entry raises the balance by its amount. |
| Expenses.Apply | budget_tracker.py:113-120 | A description edit changes only the description. An amount edit changes only the amount. |
| Expenses.BalanceUpdateAt | budget_tracker.py:119 | Replacing entry i changes the balance by the old amount minus the new one. |
| Ansi.IntroducerLengthSpec | budget_tracker.py:13 | The introducer found at the head is `0x9B` or `ESC [`. When none is found, no prefix is an introducer. |
| Ansi.SkipRunSpec | budget_tracker.py:13 | A skipped run of parameter or intermediate bytes is all of that class. It stops only at the end or at a byte outside the class. |
| Ansi.MatchLength | budget_tracker.py:13 | A match at the head is at least two characters long and fits in the text. |
| Ansi.MatchLengthIff | budget_tracker.py:13 | The scanner matches n characters at the head exactly when those n characters form one control sequence (both directions). |
| Ansi.MatchLengthSound | budget_tracker.py:13 | Whatever the scanner matches is a control sequence. |
| Ansi.MatchLengthComplete | budget_tracker.py:13 | Every control sequence at the head is what the scanner matches. |
| Ansi.MatchLengthNone | budget_tracker.py:13 | The scanner finds nothing exactly when no control sequence starts at the head. |
| Ansi.ScanFlatten | budget_tracker.py:12-13 | The scanned pieces, laid end to end, spell the original text. |
| Ansi.ScanIsLeftmost | budget_tracker.py:12-13 | The scan is a leftmost tokenization: each removed piece is a control sequence, and no control sequence starts at any kept character. |
| Ansi.LeftmostUnique | budget_tracker.py:12-13 | Any leftmost tokenization of a text is the scan, so the scanner removes exactly the leftmost non-overlapping matches. |
| Ansi.StripAnsiShorter | budget_tracker.py:12-13 | The output is never longer than the input. |
| Ansi.StripAnsiPlain | budget_tracker.py:12-13 | A text with neither `ESC` nor `0x9B` is returned unchanged. |
| Ansi.StripAnsiCons | budget_tracker.py:12-13 | A leading character other than `ESC` or `0x9B` is kept in front of the stripped rest. |
| Ansi.StripAnsiAppendInert | budget_tracker.py:12-13 | Appending characters that are neither parameter nor final bytes appends them unchanged to the output: the stripped text of the whole is the stripped prefix followed by the appended characters themselves. |
| Ansi.StripAnsiInert | budget_tracker.py:12-13 | Text of characters that are neither parameter nor final bytes comes back unchanged, since no control sequence can end inside it. |
| Ansi.StripAnsiDrops | budget_tracker.py:12-13 | A control sequence at the head is dropped. |
| Ansi.StripAnsiKeeps | budget_tracker.py:12-13 | A head character that starts no control sequence is kept. |
| Ansi.StripAnsiNotIdempotent | budget_tracker.py:12-13 | For any final byte f, `ESC ESC [ f [ f` strips to `ESC [ f`, which strips again to nothing: the function is not idempotent. |
| Boxer.Repeat | budget_tracker.py:26-31 | `c * n` has length n and every character is c. |
| Boxer.MaxWidth | budget_tracker.py:24-25 | It bounds the visible width of every line and is the width of some line. |
| Boxer.Padding | budget_tracker.py:30 | `" " * n`: n spaces when n is positive, and empty otherwise (every character is a space). |
| Boxer.TextBoxer.Add | budget_tracker.py:20-21 | `+` gives a boxer with one more line: the old lines in order, then the new one. The original value is not changed. |
| Boxer.TextBoxer.Print | budget_tracker.py:23-32 | The printed rows are `Box(lines)`: border, blank row, one framed row per line in order, blank row, border. |
| Boxer.BoxIsBox | budget_tracker.py:23-32 | `Box(lines)` has the shape of a box for its widest width. No line is wider than that width, so the padding is non-negative. Every row has visible width `max_width + 4`. |
| Boxer.BoxWidths | budget_tracker.py:26-32 | Every row of a box has the same visible width: its inner width plus 4. |
| Boxer.FramedWidth | budget_tracker.py:29-30 | A framed line no wider than w has visible width w + 4. |
| Boxer.BorderWidth | budget_tracker.py:26 | The border row is w + 4 wide. |
| Boxer.BlankWidth | budget_tracker.py:27 | The blank row is w + 4 wide. |
| Prompt.FirstAccepted | budget_tracker.py:151-166 | A prompt's answer comes from an accepted line, and what is left unread is a strictly shorter suffix of the input. |
| Prompt.FirstAcceptedAt | budget_tracker.py:151-166 | The prompt settles on line k with value v exactly when line k is accepted as v and no earlier line is accepted (both directions). |
| Prompt.FirstAcceptedEof | budget_tracker.py:151-166 | The prompt runs out of input exactly when no line is accepted. |
| Prompt.AskUntil | budget_tracker.py:151-166 | The retry loop returns the first accepted value and the lines after it, or the end of input. |
| Prompt.YesOrNo | budget_tracker.py:169-181 | It settles on the first line that is "y" or "n" and skips all other lines. It answers true exactly when that line is "y". It runs out of input exactly when no line is "y" or "n". |
| Tracker.Selection | budget_tracker.py:79-92 | The index the selection settles on is within the list, and the unread input is a strictly shorter suffix. |
| Tracker.SelectionAt | budget_tracker.py:83-92 | The selection settles on line k with index i exactly when line k parses as i, i is in range, and no earlier line parses to an index in range (both directions). |
| Tracker.SelectionStep | budget_tracker.py:84-91 | A number prompt followed by a range check that re-asks behaves like one prompt that accepts only in-range integers. |
| Tracker.SelectExpense | budget_tracker.py:79-92 | The method's loop returns the selection, and the index is in range. It takes the list as a value and cannot change it. |
| Tracker.EnterExpense | budget_tracker.py:40-47 | The lines the second half of `add_expense` leaves unread are a suffix of its input. |
| Tracker.AddDialogue | budget_tracker.py:35-47 | The lines `add_expense` leaves unread are a suffix of its input. |
| Tracker.EnterExpenseReads | budget_tracker.py:40-45 | The lines the second half of `add_expense` reads. The description is the first line. The amount answer is the first number after it. When that amount takes the balance below 0, the third answer is the first "y" or "n" after the amount. The unread input is what follows the last line taken (the amount alone when the balance stays at or above 0). Running out of input at either prompt leaves nothing unread and appends nothing; so does an empty input. |
| Tracker.AddDialogueReads | budget_tracker.py:35-38 | With the balance at or above 0 the dialogue is its second half. Below 0, the first answer is the first "y" or "n". Running out of input there leaves nothing unread and appends nothing. "n" stops with the rest of the input unread. "y" goes on with that rest, and its unread lines, entry and later answers are the second half's on that rest. |
| Tracker.EnterExpenseAnswers | budget_tracker.py:40-45 | The description comes first. An overrun question is asked only as the third answer, right after an amount that takes the balance below 0. |
| Tracker.EnterExpenseEntry | budget_tracker.py:40-46 | A "n" to the overrun question appends nothing. An appended entry has the line read first as its description and the first number parsed after it as its amount. Its answers are that description and amount, plus a "y" to the overrun question if it was asked. |
| Tracker.EnterExpenseShape | budget_tracker.py:40-46 | Answers of that shape come only with that entry appended. |
| Tracker.AddFirstConfirmation | budget_tracker.py:36-38 | The "already over the budget" question is asked only when the balance is below 0, and then first. With a balance of 0 or more, the first line read is the description. |
| Tracker.AddSecondConfirmation | budget_tracker.py:43-45 | The overrun question is asked only right after an amount for which balance minus amount is below 0. |
| Tracker.AddDeclined | budget_tracker.py:36-45 | A "n" to either confirmation appends nothing. |
| Tracker.AddEntryIff | budget_tracker.py:35-46 | An entry e is appended exactly when the answers are: the first confirmation "y" if it was asked, then e's description and amount, then the overrun confirmation "y" if it was asked (both directions). |
| Tracker.AddOverrunMeansNegativeBalance | budget_tracker.py:43-46 | For an appended entry, the overrun question was asked (and answered "y") exactly when the new balance is negative. |
| Tracker.DeleteDialogue | budget_tracker.py:95-101 | On an empty list nothing is selected and nothing changes. On a non-empty list, a record is removed exactly when the selection settles on an index. The removed index is the selected one, the removed record is the one at that index, and the unread input is what the selection left. |
| Tracker.EditModeAt | budget_tracker.py:111-124 | The mode question settles on the first line that is "1" or "2"; every other line is re-asked (both directions). |
| Tracker.EditDialogue | budget_tracker.py:104-124 | On an empty list nothing changes. Otherwise the edited index is in range, and the dialogue edits exactly when it does not run out of input. It runs out exactly when the selection gets no answer, or the part after the selection runs out (`EditEntry`). The unread input is a suffix. |
| Tracker.EditEntry | budget_tracker.py:111-124 | After a selection, the dialogue edits the selected index or runs out of input. It runs out exactly when: no line is "1" or "2"; or the mode is "1" and no line follows; or the mode is "2" and no later line parses as a number. |
| Tracker.EditFieldFollowsMode | budget_tracker.py:111-120 | The edit follows the chosen mode: "1" gives a new description and "2" a new amount. A new description is the line read right after the "1" answer. A new amount is the first number parsed after the "2" answer. |
| Tracker.EditTouchesOneEntry | budget_tracker.py:113-120 | An edit keeps the length and every other entry. A description edit keeps the amount and the total. An amount edit keeps the description and changes the total by new minus old. |
| Tracker.Ledger.constructor | budget_tracker.py:201 | The ledger starts with the loaded budget and expenses. |
| Tracker.Ledger.AddExpense | budget_tracker.py:35-47 | The method runs the add dialogue for the current balance. It appends what the dialogue appends, at the end, and nothing else. |
| Tracker.Ledger.EnterAndAppend | budget_tracker.py:40-46 | The description/amount/overrun part, appending exactly the entry the dialogue yields. |
| Tracker.Ledger.DeleteExpense | budget_tracker.py:95-101 | On a selection, the list becomes the old list without the selected entry, and the removed record is returned. Otherwise the list is unchanged. |
| Tracker.Ledger.EditExpense | budget_tracker.py:104-124 | On an edit, exactly the selected entry is replaced by the edited record. Otherwise the list is unchanged. |
| Tracker.Ledger.AskBudget | budget_tracker.py:229-231 | The budget becomes the first number given, whatever it was. At the end of input the budget is unchanged. |
| Tracker.Ledger.AskBudgetIfUnset | budget_tracker.py:202-203 | A loaded budget of exactly 0 triggers one budget prompt. Any other budget is kept and no input is read. |
| Tracker.Ledger.Dispatch | budget_tracker.py:219-237 | The effect of each choice. "1" adds, "3" deletes and "4" edits, as their dialogues say. "5" replaces the budget. "6" exits with the state unchanged. "2" and any unknown choice change nothing and read nothing more. The new state and the unread lines are those that `MenuChoice` gives. |
| Tracker.MenuChoice | budget_tracker.py:219-237 | A choice exits exactly when it is "6". Any other choice leaves a suffix of the script unread. |
| Tracker.MenuReads | budget_tracker.py:205-235 | Of the lines the menu loop reads as choices, only the last can be "6". |
| Tracker.SessionSavesIff | budget_tracker.py:205-235 | The menu loop saves exactly when one of its menu reads is "6", and then "6" is the last menu read (both directions). |
| Tracker.SessionExitSaves | budget_tracker.py:232-235 | A "6" at a menu read saves the budget and list as they are at that moment. |
| Tracker.SessionNext | budget_tracker.py:205-237 | A menu round that does not exit hands its budget, list and unread input to the next round. |
| Tracker.MenuAdd | budget_tracker.py:221-222 | Choice "1" appends the entry the add dialogue settles on and continues with the lines it left unread. |
| Tracker.SixAsDescription | budget_tracker.py:35-47 | With budget 100, no expenses and the script `1`, `6`, `5`, the "6" is read as a description. The session appends the entry ("6", 5) and ends without saving, and its only menu read is "1". |
| Tracker.StartBudget | budget_tracker.py:202-203 | A non-zero loaded budget is kept and no line is read. The start-up prompt leaves a suffix of the script unread. |
| Tracker.OverrunAccepted | budget_tracker.py:43-47 | With budget 100, no expenses and the script `1`, `rent`, `150`, `6`, `y`, `6`: the first "6" is refused by the overrun question, "y" accepts, and the entry ("rent", 150) is appended. The final "6" exits and saves it. |
| Tracker.AmountEdited | budget_tracker.py:117-120 | With the list [("A", 1)] and the script `0`, `2`, `9`, `6`: the edit dialogue sets entry 0's amount to 9 and leaves "6" unread. |
| Tracker.Ledger.Run | budget_tracker.py:197-237 | The session's result is `Saved` of the loaded state and the script: the start-up budget prompt, then the menu loop, which saves exactly when a menu read is "6" (`SessionSavesIff`). What is saved is the ledger's state at the end. A save implies "6" occurs in the script. |

## Left out

- Printing is not modelled: the menu, the messages and `show_budget_details` (budget_tracker.py:58-67), including its colour codes and how numbers are formatted. Choice "2" changes nothing, and the model says so.
- Terminal control is not modelled (`clear_screen`, `clear_line`, `move_up`): it is presentation only.
- `load_budget_data` and `save_budget_data` are file I/O through the `json` library. The `Ledger` constructor takes the loaded state, which is `(0, [])` when the file is missing or not valid JSON (budget_tracker.py:75-76); valid JSON without `initial_budget` or `expenses` raises an uncaught `KeyError` at line 74, and a document that is not a JSON object raises an uncaught `TypeError` there. Neither is modelled. `Run` returns the state that would be saved.
- Number parsing is not modelled: `float(...)` and `int(...)` become the `parseFloat` and `parseInt` parameters.
- The `ValueError` branch for an unknown `type` in `ask_for_number` (budget_tracker.py:158-159) is left out. Every call passes "float" or "int", so it cannot be reached.
- Amounts are exact reals. IEEE floating-point rounding and the int/float mix of Python's `sum` are not modelled. Nor are the special values `float(...)` accepts at budget_tracker.py:155 ("nan", "inf"): a NaN amount makes both `< 0` tests (lines 36 and 43) false, so neither confirmation would be asked. `parseFloat` can only yield a real, so the model cannot produce that case.
- Running out of input (`EOFError`) is the end of the session: nothing is saved, and nothing is changed in mid-dialogue.
- Boxer.TextBoxer.Print requires at least one line, because `max` of an empty sequence raises `ValueError`.
- Boxer.TextBoxer.Print returns the rows instead of writing them to standard output.
- Shared mutable default: the default `lines=[]` of `TextBoxer.__init__` (budget_tracker.py:17-18) is shared between instances. This does not matter here, because `+` always builds a new list. `TextBoxer` is modelled as a value.
- Selection is modelled only through the `parseInt` parameter. Whether a line such as "1.0" or " 2 " parses as an integer is up to that parameter.
- An invalid menu choice prints a message, and the next loop iteration shows the menu again. The model treats it as a step that reads nothing more.
