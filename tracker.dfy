/**
 * The interactive budget tracker: the dialogues that add, delete and edit
 * expenses, the budget prompts, and the main menu loop, over a ledger that holds
 * the budget and the list of expenses.
 *
 * Each dialogue is given first as a function of the ledger and the scripted input
 * (what it reads, what it decides, what is left unread); the ledger's methods
 * carry out the same dialogue step by step and are proved to agree with it.
 * Number parsing (`float(...)`, `int(...)`) is a parameter: `parseFloat` and
 * `parseInt` say for each line whether it parses and to which value.
 */
module Tracker {
  import opened Wrappers
  import opened Prompt
  import opened Expenses

  // ---------------------------------------------------------------------------
  // Choosing an entry

  /** A line names entry i when it parses as an integer i with 0 <= i < n. */
  function IndexIn(parseInt: string -> Option<int>, n: nat): string -> Option<nat> {
    line => (match parseInt(line)
             case Some(i) => if 0 <= i < n then Some(i as nat) else None
             case None => None)
  }

  /** The entry the selection prompt settles on: the first line that names an entry of the list. */
  function Selection(expenses: seq<Expense>, input: seq<string>, parseInt: string -> Option<int>): (r: Reply<nat>)
    ensures r.Got? ==> r.value < |expenses| && |r.rest| < |input| && IsSuffix(r.rest, input)
  {
    FirstAccepted(input, IndexIn(parseInt, |expenses|))
  }

  /**
   * The selection prompt re-asks inside a number prompt: a number prompt over
   * `cur` followed by a range check behaves like one prompt over `cur` that
   * accepts in-range integers only.
   */
  lemma {:induction false} SelectionStep(cur: seq<string>, parseInt: string -> Option<int>, n: nat)
    ensures FirstAccepted(cur, parseInt).Eof? ==> FirstAccepted(cur, IndexIn(parseInt, n)).Eof?
    ensures FirstAccepted(cur, parseInt).Got? ==>
              var i, rest := FirstAccepted(cur, parseInt).value, FirstAccepted(cur, parseInt).rest;
              FirstAccepted(cur, IndexIn(parseInt, n))
                == if 0 <= i < n then Got(i as nat, rest) else FirstAccepted(rest, IndexIn(parseInt, n))
    decreases |cur|
  {
    if cur != [] && parseInt(cur[0]).None? {
      assert IndexIn(parseInt, n)(cur[0]).None?;
      SelectionStep(cur[1..], parseInt, n);
    }
  }

  /** The selection settles on line k with entry i exactly when line k names i and no earlier line names an entry. */
  lemma SelectionAt(expenses: seq<Expense>, input: seq<string>, parseInt: string -> Option<int>, k: nat, i: nat)
    requires k < |input|
    ensures Selection(expenses, input, parseInt) == Got(i, input[k + 1..]) <==>
              parseInt(input[k]) == Some(i as int) && i < |expenses|
              && forall j :: 0 <= j < k ==> parseInt(input[j]).None? || !(0 <= parseInt(input[j]).value < |expenses|)
  {
    var accept := IndexIn(parseInt, |expenses|);
    FirstAcceptedAt(input, accept, k, i);
    assert forall j :: 0 <= j < |input| ==>
             (accept(input[j]).None? <==> parseInt(input[j]).None? || !(0 <= parseInt(input[j]).value < |expenses|));
  }

  /** `select_expense`: ask for an index until one names an entry; the list is only read. */
  method SelectExpense(expenses: seq<Expense>, input: seq<string>, parseInt: string -> Option<int>)
    returns (r: Reply<nat>)
    ensures r == Selection(expenses, input, parseInt)
    ensures r.Got? ==> r.value < |expenses|
  {
    var pending := input;
    while true
      invariant Selection(expenses, input, parseInt) == FirstAccepted(pending, IndexIn(parseInt, |expenses|))
      decreases |pending|
    {
      var choice := AskUntil(pending, parseInt);
      SelectionStep(pending, parseInt, |expenses|);
      match choice
      case Eof =>
        return Eof;
      case Got(i, rest) =>
        if 0 <= i < |expenses| {
          return Got(i as nat, rest);
        }
        pending := rest;
    }
  }

  // ---------------------------------------------------------------------------
  // Adding an expense

  /** The answers the add dialogue obtains, in the order it asks for them. */
  datatype Answer =
    | ContinueWhileOver(yes: bool)   // "You are already over the budget. Continue?"
    | Description(text: string)
    | Amount(value: real)
    | AcceptOverrun(yes: bool)       // "Adding this will put you over the budget. Continue?"

  /** The answers given, the expense to append if any, and the unread input. */
  datatype AddResult = AddResult(answers: seq<Answer>, entry: Option<Expense>, rest: seq<string>) {
    /** What the dialogue appends to the list: the entry, or nothing. */
    function Appended(): seq<Expense> {
      if entry.Some? then [entry.value] else []
    }
  }

  /** The add dialogue after the first confirmation: description, amount, and the overrun confirmation. */
  function EnterExpense(balance: real, input: seq<string>, parseFloat: string -> Option<real>): (r: AddResult)
    ensures IsSuffix(r.rest, input)
  {
    if input == [] then AddResult([], None, [])
    else
      var description := input[0];
      match FirstAccepted(input[1..], parseFloat)
      case Eof => AddResult([Description(description)], None, [])
      case Got(amount, afterAmount) =>
        var given := [Description(description), Amount(amount)];
        SuffixTransitive(afterAmount, input[1..], input);
        if balance - amount < 0.0 then
          match FirstAccepted(afterAmount, YesNoAnswer)
          case Eof => AddResult(given, None, [])
          case Got(yes, afterConfirm) =>
            SuffixTransitive(afterConfirm, afterAmount, input);
            AddResult(given + [AcceptOverrun(yes)], if yes then Some(Expense(description, amount)) else None, afterConfirm)
        else
          AddResult(given, Some(Expense(description, amount)), afterAmount)
  }

  /** `add_expense` with the current balance: what it asks, what it appends, what it leaves unread. */
  function AddDialogue(balance: real, input: seq<string>, parseFloat: string -> Option<real>): (r: AddResult)
    ensures IsSuffix(r.rest, input)
  {
    if balance < 0.0 then
      match FirstAccepted(input, YesNoAnswer)
      case Eof => AddResult([], None, [])
      case Got(yes, rest) =>
        if !yes then AddResult([ContinueWhileOver(false)], None, rest)
        else
          var r := EnterExpense(balance, rest, parseFloat);
          SuffixTransitive(r.rest, rest, input);
          r.(answers := [ContinueWhileOver(true)] + r.answers)
    else
      EnterExpense(balance, input, parseFloat)
  }

  /** The confirmations the dialogue asks before appending an entry of the given amount. */
  function Opening(balance: real): seq<Answer> {
    if balance < 0.0 then [ContinueWhileOver(true)] else []
  }

  function Closing(balance: real, amount: real): seq<Answer> {
    if balance - amount < 0.0 then [AcceptOverrun(true)] else []
  }

  /** The answers of the second half of the dialogue, case by case. */
  lemma EnterExpenseCases(balance: real, input: seq<string>, parseFloat: string -> Option<real>)
    ensures var x := EnterExpense(balance, input, parseFloat);
            && (input == [] ==> x.answers == [] && x.entry.None?)
            && (input != [] && FirstAccepted(input[1..], parseFloat).Eof? ==>
                  x.answers == [Description(input[0])] && x.entry.None?)
            && (input != [] && FirstAccepted(input[1..], parseFloat).Got? ==>
                  var v := FirstAccepted(input[1..], parseFloat).value;
                  var confirm := FirstAccepted(FirstAccepted(input[1..], parseFloat).rest, YesNoAnswer);
                  if balance - v >= 0.0 then
                    x.answers == [Description(input[0]), Amount(v)] && x.entry == Some(Expense(input[0], v))
                  else if confirm.Eof? then
                    x.answers == [Description(input[0]), Amount(v)] && x.entry.None?
                  else
                    x.answers == [Description(input[0]), Amount(v), AcceptOverrun(confirm.value)]
                    && x.entry == (if confirm.value then Some(Expense(input[0], v)) else None))
  {
  }

  /** The questions the second half of the dialogue asks, in order. */
  lemma EnterExpenseAnswers(balance: real, input: seq<string>, parseFloat: string -> Option<real>)
    ensures var x := EnterExpense(balance, input, parseFloat);
            (forall k :: 0 <= k < |x.answers| ==> !x.answers[k].ContinueWhileOver?)
            && (forall k :: 0 <= k < |x.answers| && x.answers[k].AcceptOverrun? ==>
                  k == 2 && x.answers[1].Amount? && balance - x.answers[1].value < 0.0)
            && (input != [] ==> x.answers != [] && x.answers[0] == Description(input[0]))
  {
    EnterExpenseCases(balance, input, parseFloat);
  }

  /** The second half of the dialogue appends exactly the entry it was given, once every confirmation is "y". */
  lemma EnterExpenseEntry(balance: real, input: seq<string>, parseFloat: string -> Option<real>)
    ensures var x := EnterExpense(balance, input, parseFloat);
            (AcceptOverrun(false) in x.answers ==> x.entry.None?)
            && (x.entry.Some? ==>
                  input != [] && x.entry.value.description == input[0]
                  && FirstAccepted(input[1..], parseFloat).Got?
                  && FirstAccepted(input[1..], parseFloat).value == x.entry.value.amount)
            && (x.entry.Some? ==>
                  x.answers == [Description(x.entry.value.description), Amount(x.entry.value.amount)]
                               + Closing(balance, x.entry.value.amount))
  {
    EnterExpenseCases(balance, input, parseFloat);
  }

  /**
   * The lines the second half of the dialogue reads: the description is the first
   * line, the amount the first number after it, and the overrun answer the first
   * "y" or "n" after that; what is left unread is what follows the last of them.
   */
  lemma EnterExpenseReads(balance: real, input: seq<string>, parseFloat: string -> Option<real>)
    ensures input == [] ==> EnterExpense(balance, input, parseFloat) == AddResult([], None, [])
    ensures input != [] ==>
              var x := EnterExpense(balance, input, parseFloat);
              var a := FirstAccepted(input[1..], parseFloat);
              (a.Eof? ==> x.rest == [] && x.entry.None?)
              && (a.Got? ==> |x.answers| >= 2 && x.answers[1] == Amount(a.value))
              && (a.Got? && balance - a.value >= 0.0 ==> |x.answers| == 2 && x.rest == a.rest)
              && (a.Got? && balance - a.value < 0.0 ==>
                    var c := FirstAccepted(a.rest, YesNoAnswer);
                    (c.Eof? ==> x.rest == [] && x.entry.None?)
                    && (c.Got? ==> |x.answers| == 3 && x.answers[2] == AcceptOverrun(c.value) && x.rest == c.rest))
  {
  }

  /** Conversely, answers of that shape only come with that entry. */
  lemma EnterExpenseShape(balance: real, input: seq<string>, parseFloat: string -> Option<real>, e: Expense)
    requires EnterExpense(balance, input, parseFloat).answers
               == [Description(e.description), Amount(e.amount)] + Closing(balance, e.amount)
    ensures EnterExpense(balance, input, parseFloat).entry == Some(e)
  {
    var x := EnterExpense(balance, input, parseFloat);
    var shape := [Description(e.description), Amount(e.amount)] + Closing(balance, e.amount);
    assert x.answers[0] == shape[0] && x.answers[1] == shape[1];
    var amount := FirstAccepted(input[1..], parseFloat);
    if balance - amount.value < 0.0 {
      assert x.answers[2] == shape[2];
    }
  }

  /** The add dialogue, case by case on the first confirmation. */
  lemma AddDialogueCases(balance: real, input: seq<string>, parseFloat: string -> Option<real>)
    ensures var r := AddDialogue(balance, input, parseFloat);
            var first := FirstAccepted(input, YesNoAnswer);
            && (balance >= 0.0 ==> r == EnterExpense(balance, input, parseFloat))
            && (balance < 0.0 && first.Eof? ==> r == AddResult([], None, []))
            && (balance < 0.0 && first.Got? && !first.value ==>
                  r == AddResult([ContinueWhileOver(false)], None, first.rest))
            && (balance < 0.0 && first.Got? && first.value ==>
                  var x := EnterExpense(balance, first.rest, parseFloat);
                  r.answers == [ContinueWhileOver(true)] + x.answers && r.entry == x.entry && r.rest == x.rest)
  {
  }

  /**
   * The lines the whole add dialogue reads: with a negative balance, the first
   * "y" or "n" answers the first confirmation; "n" or the end of the input stops
   * the dialogue there, and "y" goes on with the rest of the input.
   */
  lemma AddDialogueReads(balance: real, input: seq<string>, parseFloat: string -> Option<real>)
    ensures balance >= 0.0 ==> AddDialogue(balance, input, parseFloat) == EnterExpense(balance, input, parseFloat)
    ensures balance < 0.0 ==>
              var r := AddDialogue(balance, input, parseFloat);
              var first := FirstAccepted(input, YesNoAnswer);
              (first.Eof? ==> r.rest == [] && r.entry.None?)
              && (first.Got? ==> r.answers != [] && r.answers[0] == ContinueWhileOver(first.value))
              && (first.Got? && !first.value ==> r.rest == first.rest && r.entry.None?)
              && (first.Got? && first.value ==>
                    r.rest == EnterExpense(balance, first.rest, parseFloat).rest
                    && r.entry == EnterExpense(balance, first.rest, parseFloat).entry
                    && r.answers[1..] == EnterExpense(balance, first.rest, parseFloat).answers)
  {
    AddDialogueCases(balance, input, parseFloat);
  }

  /**
   * The first confirmation is asked only when the balance is already negative,
   * and then before anything else; with a balance of zero or more the first line
   * read is the description.
   */
  lemma AddFirstConfirmation(balance: real, input: seq<string>, parseFloat: string -> Option<real>)
    ensures var r := AddDialogue(balance, input, parseFloat);
            forall k :: 0 <= k < |r.answers| && r.answers[k].ContinueWhileOver? ==> k == 0 && balance < 0.0
    ensures var r := AddDialogue(balance, input, parseFloat);
            balance < 0.0 && FirstAccepted(input, YesNoAnswer).Got? ==>
              r.answers != [] && r.answers[0] == ContinueWhileOver(FirstAccepted(input, YesNoAnswer).value)
    ensures balance >= 0.0 && input != [] ==>
              var r := AddDialogue(balance, input, parseFloat);
              r.answers != [] && r.answers[0] == Description(input[0])
  {
    AddDialogueCases(balance, input, parseFloat);
    var r := AddDialogue(balance, input, parseFloat);
    var first := FirstAccepted(input, YesNoAnswer);
    if balance < 0.0 {
      if first.Got? && first.value {
        EnterExpenseAnswers(balance, first.rest, parseFloat);
        EnterExpenseEntry(balance, first.rest, parseFloat);
        var x := EnterExpense(balance, first.rest, parseFloat);
        assert r.answers == [ContinueWhileOver(true)] + x.answers;
        assert forall k :: 0 < k < |r.answers| ==> r.answers[k] == x.answers[k - 1];
      }
    } else {
      EnterExpenseAnswers(balance, input, parseFloat);
      EnterExpenseEntry(balance, input, parseFloat);
    }
  }

  /**
   * The overrun confirmation is asked only right after an amount that would take
   * the balance below zero.
   */
  lemma AddSecondConfirmation(balance: real, input: seq<string>, parseFloat: string -> Option<real>)
    ensures var r := AddDialogue(balance, input, parseFloat);
            forall k :: 0 <= k < |r.answers| && r.answers[k].AcceptOverrun? ==>
              k > 0 && r.answers[k - 1].Amount? && balance - r.answers[k - 1].value < 0.0
  {
    AddDialogueCases(balance, input, parseFloat);
    var r := AddDialogue(balance, input, parseFloat);
    var first := FirstAccepted(input, YesNoAnswer);
    if balance < 0.0 {
      if first.Got? && first.value {
        EnterExpenseAnswers(balance, first.rest, parseFloat);
        EnterExpenseEntry(balance, first.rest, parseFloat);
        var x := EnterExpense(balance, first.rest, parseFloat);
        assert r.answers == [ContinueWhileOver(true)] + x.answers;
        assert forall k :: 0 < k < |r.answers| ==> r.answers[k] == x.answers[k - 1];
      }
    } else {
      EnterExpenseAnswers(balance, input, parseFloat);
      EnterExpenseEntry(balance, input, parseFloat);
    }
  }

  /** A "n" to either confirmation appends nothing. */
  lemma AddDeclined(balance: real, input: seq<string>, parseFloat: string -> Option<real>)
    ensures var r := AddDialogue(balance, input, parseFloat);
            (ContinueWhileOver(false) in r.answers || AcceptOverrun(false) in r.answers) ==> r.entry.None?
  {
    AddDialogueCases(balance, input, parseFloat);
    var first := FirstAccepted(input, YesNoAnswer);
    if balance >= 0.0 {
      EnterExpenseAnswers(balance, input, parseFloat);
      EnterExpenseEntry(balance, input, parseFloat);
    } else if first.Got? && first.value {
      EnterDeclined(balance, first.rest, parseFloat);
    }
  }

  /** After a "y" to the first confirmation, a "n" can only be the overrun answer, which appends nothing. */
  lemma EnterDeclined(balance: real, rest: seq<string>, parseFloat: string -> Option<real>)
    ensures var x := EnterExpense(balance, rest, parseFloat);
            (ContinueWhileOver(false) in [ContinueWhileOver(true)] + x.answers
             || AcceptOverrun(false) in [ContinueWhileOver(true)] + x.answers) ==> x.entry.None?
  {
    var x := EnterExpense(balance, rest, parseFloat);
    EnterExpenseAnswers(balance, rest, parseFloat);
    EnterExpenseEntry(balance, rest, parseFloat);
    InCons(ContinueWhileOver(true), x.answers, ContinueWhileOver(false));
    InCons(ContinueWhileOver(true), x.answers, AcceptOverrun(false));
  }

  lemma InCons<T>(h: T, a: seq<T>, v: T)
    requires v != h
    ensures v in [h] + a <==> v in a
  {
  }

  /**
   * An entry is appended exactly when the user went through the whole dialogue
   * and said "y" to every confirmation it asked; the entry is made of the
   * description and amount they gave.
   */
  lemma AddEntryIff(balance: real, input: seq<string>, parseFloat: string -> Option<real>, e: Expense)
    ensures var r := AddDialogue(balance, input, parseFloat);
            r.entry == Some(e) <==>
              r.answers == Opening(balance) + [Description(e.description), Amount(e.amount)] + Closing(balance, e.amount)
  {
    AddDialogueCases(balance, input, parseFloat);
    var r := AddDialogue(balance, input, parseFloat);
    var inner := [Description(e.description), Amount(e.amount)] + Closing(balance, e.amount);
    var shape := Opening(balance) + [Description(e.description), Amount(e.amount)] + Closing(balance, e.amount);
    assert shape == Opening(balance) + inner;
    var first := FirstAccepted(input, YesNoAnswer);
    if balance < 0.0 {
      if first.Got? && first.value {
        EnterExpenseEntry(balance, first.rest, parseFloat);
        var x := EnterExpense(balance, first.rest, parseFloat);
        assert r.answers == [ContinueWhileOver(true)] + x.answers;
        assert r.entry == x.entry;
        assert shape == [ContinueWhileOver(true)] + inner;
        assert r.answers[1..] == x.answers && shape[1..] == inner;
        if x.answers == inner {
          EnterExpenseShape(balance, first.rest, parseFloat, e);
        }
      } else {
        assert |r.answers| <= 1 < |shape|;
      }
    } else {
      EnterExpenseEntry(balance, input, parseFloat);
      if r.answers == inner {
        EnterExpenseShape(balance, input, parseFloat, e);
      }
    }
  }

  /** The overrun confirmation is asked exactly when appending the entry makes the balance negative. */
  lemma AddOverrunMeansNegativeBalance(budget: real, expenses: seq<Expense>, input: seq<string>,
                                       parseFloat: string -> Option<real>, e: Expense)
    requires AddDialogue(Balance(budget, expenses), input, parseFloat).entry == Some(e)
    ensures AcceptOverrun(true) in AddDialogue(Balance(budget, expenses), input, parseFloat).answers
            <==> Balance(budget, expenses + [e]) < 0.0
  {
    var balance := Balance(budget, expenses);
    AddEntryIff(balance, input, parseFloat, e);
    BalanceAppend(budget, expenses, e);
  }

  // ---------------------------------------------------------------------------
  // Deleting and editing

  /** What a delete or edit dialogue did: nothing (empty list), a change at an index, or ran out of input. */
  datatype Change<T> = NothingToChange | Changed(index: nat, what: T, rest: seq<string>) | InputEnded {
    /** The lines left unread once the dialogue is over. */
    function Remaining(input: seq<string>): seq<string> {
      match this
      case NothingToChange => input
      case Changed(_, _, rest) => rest
      case InputEnded => []
    }
  }

  /** `delete_budget_details`: on a non-empty list, the entry the selection settles on is removed. */
  function DeleteDialogue(expenses: seq<Expense>, input: seq<string>, parseInt: string -> Option<int>): (r: Change<Expense>)
    ensures expenses == [] ==> r == NothingToChange
    ensures r.Changed? ==> r.index < |expenses| && r.what == expenses[r.index]
    ensures expenses != [] ==> (r.Changed? <==> Selection(expenses, input, parseInt).Got?)
    ensures r.Changed? ==> Selection(expenses, input, parseInt) == Got(r.index, r.rest)
    ensures IsSuffix(r.Remaining(input), input)
  {
    if |expenses| == 0 then NothingToChange
    else
      match Selection(expenses, input, parseInt)
      case Eof => InputEnded
      case Got(i, rest) => Changed(i, expenses[i], rest)
  }

  /** The two edit modes of the edit dialogue. */
  datatype EditMode = EditDescription | EditAmount

  /** The answers the edit-mode question accepts. */
  function EditModeAnswer(line: string): Option<EditMode> {
    if line == "1" then Some(EditDescription)
    else if line == "2" then Some(EditAmount)
    else None
  }

  /** The mode question settles on the first line that is "1" or "2"; every other line is refused. */
  lemma EditModeAt(input: seq<string>, k: nat, m: EditMode)
    requires k < |input|
    ensures FirstAccepted(input, EditModeAnswer) == Got(m, input[k + 1..]) <==>
              (if m == EditDescription then input[k] == "1" else input[k] == "2")
              && forall j :: 0 <= j < k ==> input[j] != "1" && input[j] != "2"
  {
    FirstAcceptedAt(input, EditModeAnswer, k, m);
  }

  /** `edit_budget_details`: select an entry, then a mode, then read the new description or amount. */
  function EditDialogue(expenses: seq<Expense>, input: seq<string>, parseInt: string -> Option<int>,
                        parseFloat: string -> Option<real>): (r: Change<Edit>)
    ensures expenses == [] ==> r == NothingToChange
    ensures r.Changed? ==> r.index < |expenses|
    ensures expenses != [] ==> (r.Changed? <==> !r.InputEnded?)
    ensures expenses != [] ==>
              var sel := Selection(expenses, input, parseInt);
              (r.InputEnded? <==> sel.Eof? || (sel.Got? && EditEntry(sel.value, sel.rest, parseFloat).InputEnded?))
    ensures IsSuffix(r.Remaining(input), input)
  {
    if |expenses| == 0 then NothingToChange
    else
      match Selection(expenses, input, parseInt)
      case Eof => InputEnded
      case Got(i, afterIndex) =>
        var r := EditEntry(i, afterIndex, parseFloat);
        SuffixTransitive(r.Remaining(afterIndex), afterIndex, input);
        r
  }

  /** The part of `edit_budget_details` after entry i is selected: the mode, then the new value. */
  function EditEntry(i: nat, afterIndex: seq<string>, parseFloat: string -> Option<real>): (r: Change<Edit>)
    ensures !r.NothingToChange?
    ensures r.Changed? ==> r.index == i
    ensures var m := FirstAccepted(afterIndex, EditModeAnswer);
            r.InputEnded? <==>
              m.Eof?
              || (m.Got? && m.value == EditDescription && m.rest == [])
              || (m.Got? && m.value == EditAmount && FirstAccepted(m.rest, parseFloat).Eof?)
    ensures IsSuffix(r.Remaining(afterIndex), afterIndex)
  {
    match FirstAccepted(afterIndex, EditModeAnswer)
    case Eof => InputEnded
    case Got(mode, afterMode) =>
      match mode
      case EditDescription =>
        if afterMode == [] then InputEnded
        else
          SuffixTransitive(afterMode[1..], afterMode, afterIndex);
          Changed(i, NewDescription(afterMode[0]), afterMode[1..])
      case EditAmount =>
        match FirstAccepted(afterMode, parseFloat)
        case Eof => InputEnded
        case Got(v, rest) =>
          SuffixTransitive(rest, afterMode, afterIndex);
          Changed(i, NewAmount(v), rest)
  }

  /** The edit names the field the mode chose: "1" gives a new description, "2" a new amount. */
  lemma EditFieldFollowsMode(expenses: seq<Expense>, input: seq<string>, parseInt: string -> Option<int>,
                             parseFloat: string -> Option<real>)
    requires EditDialogue(expenses, input, parseInt, parseFloat).Changed?
    ensures var r := EditDialogue(expenses, input, parseInt, parseFloat);
            var afterIndex := Selection(expenses, input, parseInt).rest;
            Selection(expenses, input, parseInt) == Got(r.index, afterIndex)
            && FirstAccepted(afterIndex, EditModeAnswer).Got?
            && (r.what.NewDescription? <==> FirstAccepted(afterIndex, EditModeAnswer).value == EditDescription)
    ensures var r := EditDialogue(expenses, input, parseInt, parseFloat);
            var afterMode := FirstAccepted(Selection(expenses, input, parseInt).rest, EditModeAnswer).rest;
            (r.what.NewDescription? ==> afterMode != [] && r.what.text == afterMode[0] && r.rest == afterMode[1..])
            && (r.what.NewAmount? ==> FirstAccepted(afterMode, parseFloat) == Got(r.what.value, r.rest))
  {
  }

  /** After an edit, the list has its old length and every other entry is unchanged. */
  lemma EditTouchesOneEntry(s: seq<Expense>, i: nat, edit: Edit)
    requires i < |s|
    ensures var t := s[i := Apply(s[i], edit)];
            |t| == |s| && (forall j :: 0 <= j < |s| && j != i ==> t[j] == s[j])
            && (edit.NewDescription? ==> t[i].amount == s[i].amount && Total(t) == Total(s))
            && (edit.NewAmount? ==>
                  t[i].description == s[i].description && Total(t) == Total(s) - s[i].amount + edit.value)
  {
    BalanceUpdateAt(0.0, s, i, Apply(s[i], edit));
  }

  // ---------------------------------------------------------------------------
  // The ledger and the menu

  /** The outcome of one menu choice: go on reading, or save and leave. */
  datatype Step = Continue(rest: seq<string>) | Exit

  /** The state after one menu choice and the lines left unread, or the exit choice. */
  datatype Outcome = Next(budget: real, expenses: seq<Expense>, rest: seq<string>) | Quit

  /** What one menu choice does to the budget and the list, and what it leaves unread. */
  function MenuChoice(choice: string, budget: real, expenses: seq<Expense>, input: seq<string>,
                      parseFloat: string -> Option<real>, parseInt: string -> Option<int>): (r: Outcome)
    ensures r.Quit? <==> choice == "6"
    ensures r.Next? ==> IsSuffix(r.rest, input)
  {
    if choice == "1" then
      var a := AddDialogue(Balance(budget, expenses), input, parseFloat);
      Next(budget, expenses + a.Appended(), a.rest)
    else if choice == "3" then
      var d := DeleteDialogue(expenses, input, parseInt);
      Next(budget, if d.Changed? then RemoveAt(expenses, d.index) else expenses, d.Remaining(input))
    else if choice == "4" then
      var e := EditDialogue(expenses, input, parseInt, parseFloat);
      Next(budget, if e.Changed? then expenses[e.index := Apply(expenses[e.index], e.what)] else expenses,
           e.Remaining(input))
    else if choice == "5" then
      match FirstAccepted(input, parseFloat)
      case Got(v, rest) => Next(v, expenses, rest)
      case Eof => Next(budget, expenses, [])
    else if choice == "6" then Quit
    else Next(budget, expenses, input)
  }

  /** The menu loop from the given state: the state "6" saves, or None when the input runs out first. */
  function Session(budget: real, expenses: seq<Expense>, pending: seq<string>,
                   parseFloat: string -> Option<real>, parseInt: string -> Option<int>): Option<(real, seq<Expense>)>
    decreases |pending|
  {
    if pending == [] then None
    else
      match MenuChoice(pending[0], budget, expenses, pending[1..], parseFloat, parseInt)
      case Quit => Some((budget, expenses))
      case Next(b, e, rest) => Session(b, e, rest, parseFloat, parseInt)
  }

  /** The lines the menu loop reads as choices, in order, up to the exit choice or the end of the input. */
  function MenuReads(budget: real, expenses: seq<Expense>, pending: seq<string>,
                     parseFloat: string -> Option<real>, parseInt: string -> Option<int>): (r: seq<string>)
    ensures forall k :: 0 <= k < |r| - 1 ==> r[k] != "6"
    decreases |pending|
  {
    if pending == [] then []
    else
      match MenuChoice(pending[0], budget, expenses, pending[1..], parseFloat, parseInt)
      case Quit => [pending[0]]
      case Next(b, e, rest) => [pending[0]] + MenuReads(b, e, rest, parseFloat, parseInt)
  }

  /** The menu loop saves exactly when one of its menu reads is "6", and then "6" is its last read. */
  lemma {:induction false} SessionSavesIff(budget: real, expenses: seq<Expense>, pending: seq<string>,
                                           parseFloat: string -> Option<real>, parseInt: string -> Option<int>)
    ensures var choices := MenuReads(budget, expenses, pending, parseFloat, parseInt);
            Session(budget, expenses, pending, parseFloat, parseInt).Some?
            <==> choices != [] && choices[|choices| - 1] == "6"
    ensures "6" in MenuReads(budget, expenses, pending, parseFloat, parseInt)
            <==> Session(budget, expenses, pending, parseFloat, parseInt).Some?
    decreases |pending|
  {
    if pending != [] {
      match MenuChoice(pending[0], budget, expenses, pending[1..], parseFloat, parseInt)
      case Quit =>
      case Next(b, e, rest) =>
        SessionSavesIff(b, e, rest, parseFloat, parseInt);
        var tail := MenuReads(b, e, rest, parseFloat, parseInt);
        assert MenuReads(budget, expenses, pending, parseFloat, parseInt) == [pending[0]] + tail;
        assert "6" in [pending[0]] + tail <==> "6" in tail;
    }
  }

  /** Exiting saves the state as it is: "6" as the first menu read saves the current budget and list. */
  lemma SessionExitSaves(budget: real, expenses: seq<Expense>, pending: seq<string>,
                         parseFloat: string -> Option<real>, parseInt: string -> Option<int>)
    requires pending != [] && pending[0] == "6"
    ensures Session(budget, expenses, pending, parseFloat, parseInt) == Some((budget, expenses))
  {
  }

  /** A "6" read as a description is not a menu choice: `1`, `6`, `5` adds an expense named "6" and saves nothing. */
  lemma SixAsDescription(parseFloat: string -> Option<real>, parseInt: string -> Option<int>)
    requires parseFloat("5") == Some(5.0)
    ensures var script := ["1", "6", "5"];
            MenuChoice("1", 100.0, [], script[1..], parseFloat, parseInt) == Next(100.0, [Expense("6", 5.0)], [])
            && Session(100.0, [], script, parseFloat, parseInt) == None
            && MenuReads(100.0, [], script, parseFloat, parseInt) == ["1"]
  {
    var script := ["1", "6", "5"];
    var input := script[1..];
    assert input == ["6", "5"];
    assert input[1..] == ["5"];
    assert ["5"][1..] == [];
    var a := AddDialogue(Balance(100.0, []), input, parseFloat);
    assert a == AddResult([Description("6"), Amount(5.0)], Some(Expense("6", 5.0)), []);
  }

  /**
   * An add over budget: "6" at the overrun question is refused rather than taken as
   * the exit choice, "y" accepts, and the final "6" exits and saves the entry.
   */
  lemma OverrunAccepted(parseFloat: string -> Option<real>, parseInt: string -> Option<int>)
    requires parseFloat("150") == Some(150.0)
    ensures var script := ["1", "rent", "150", "6", "y", "6"];
            MenuChoice("1", 100.0, [], script[1..], parseFloat, parseInt) == Next(100.0, [Expense("rent", 150.0)], ["6"])
            && Session(100.0, [], script, parseFloat, parseInt) == Some((100.0, [Expense("rent", 150.0)]))
  {
    var script := ["1", "rent", "150", "6", "y", "6"];
    var entered := [Expense("rent", 150.0)];
    var input := script[1..];
    assert input == ["rent", "150", "6", "y", "6"];
    OverrunDialogue([], input, parseFloat);
    MenuAdd(100.0, [], input, parseFloat, parseInt, Expense("rent", 150.0), ["6"]);
    assert [] + [Expense("rent", 150.0)] == entered;
    SessionNext(100.0, [], script, 100.0, entered, ["6"], parseFloat, parseInt);
    SessionExitSaves(100.0, entered, ["6"], parseFloat, parseInt);
  }

  lemma OverrunDialogue(expenses: seq<Expense>, input: seq<string>, parseFloat: string -> Option<real>)
    requires expenses == [] && input == ["rent", "150", "6", "y", "6"] && parseFloat("150") == Some(150.0)
    ensures AddDialogue(Balance(100.0, expenses), input, parseFloat)
            == AddResult([Description("rent"), Amount(150.0), AcceptOverrun(true)], Some(Expense("rent", 150.0)), ["6"])
  {
    assert Balance(100.0, expenses) == 100.0;
    var afterDescription := input[1..];
    assert afterDescription == ["150", "6", "y", "6"];
    var afterAmount := afterDescription[1..];
    assert afterAmount == ["6", "y", "6"];
    assert afterAmount[1..] == ["y", "6"];
    assert afterAmount[1..][1..] == ["6"];
    assert FirstAccepted(afterDescription, parseFloat) == Got(150.0, afterAmount);
    assert FirstAccepted(afterAmount, YesNoAnswer) == Got(true, ["6"]);
  }

  /** Menu choice "1" when the add dialogue settles on entry e. */
  lemma MenuAdd(budget: real, expenses: seq<Expense>, input: seq<string>,
                parseFloat: string -> Option<real>, parseInt: string -> Option<int>,
                e: Expense, rest: seq<string>)
    requires AddDialogue(Balance(budget, expenses), input, parseFloat).entry == Some(e)
    requires AddDialogue(Balance(budget, expenses), input, parseFloat).rest == rest
    ensures MenuChoice("1", budget, expenses, input, parseFloat, parseInt) == Next(budget, expenses + [e], rest)
  {
  }

  /** One menu round that does not exit: the session goes on from the state it leaves. */
  lemma SessionNext(budget: real, expenses: seq<Expense>, pending: seq<string>,
                    budget': real, expenses': seq<Expense>, rest: seq<string>,
                    parseFloat: string -> Option<real>, parseInt: string -> Option<int>)
    requires pending != []
    requires MenuChoice(pending[0], budget, expenses, pending[1..], parseFloat, parseInt) == Next(budget', expenses', rest)
    ensures Session(budget, expenses, pending, parseFloat, parseInt) == Session(budget', expenses', rest, parseFloat, parseInt)
  {
  }

  /** An edit of entry 0's amount: index "0", mode "2" and amount "9" give the new amount 9, and "6" is left unread. */
  lemma AmountEdited(expenses: seq<Expense>, input: seq<string>,
                     parseFloat: string -> Option<real>, parseInt: string -> Option<int>)
    requires expenses == [Expense("A", 1.0)] && input == ["0", "2", "9", "6"]
    requires parseInt("0") == Some(0) && parseFloat("9") == Some(9.0)
    ensures EditDialogue(expenses, input, parseInt, parseFloat) == Changed(0, NewAmount(9.0), ["6"])
  {
    var afterIndex := input[1..];
    assert afterIndex == ["2", "9", "6"];
    var afterMode := afterIndex[1..];
    assert afterMode == ["9", "6"];
    assert afterMode[1..] == ["6"];
    assert Selection(expenses, input, parseInt) == Got(0, afterIndex);
    assert FirstAccepted(afterIndex, EditModeAnswer) == Got(EditAmount, afterMode);
    assert FirstAccepted(afterMode, parseFloat) == Got(9.0, ["6"]);
  }

  /** The budget prompt at start-up: a budget of exactly 0 is asked for once. */
  function StartBudget(budget: real, input: seq<string>, parseFloat: string -> Option<real>): (r: (real, seq<string>))
    ensures IsSuffix(r.1, input)
    ensures budget != 0.0 ==> r == (budget, input)
  {
    if budget != 0.0 then (budget, input)
    else
      match FirstAccepted(input, parseFloat)
      case Got(v, rest) => (v, rest)
      case Eof => (budget, [])
  }

  /** What a whole session saves, from the loaded state and the script; None when it ends without saving. */
  function Saved(budget: real, expenses: seq<Expense>, input: seq<string>,
                 parseFloat: string -> Option<real>, parseInt: string -> Option<int>): Option<(real, seq<Expense>)>
  {
    var start := StartBudget(budget, input, parseFloat);
    Session(start.0, expenses, start.1, parseFloat, parseInt)
  }

  /** The session state: the budget and the list of expenses, changed in place by the dialogues. */
  class Ledger {
    var budget: real
    var expenses: seq<Expense>

    /** The state loaded at start-up; a missing file or one that is not valid JSON gives budget 0 and no expenses. */
    constructor (budget: real, expenses: seq<Expense>)
      ensures this.budget == budget && this.expenses == expenses
    {
      this.budget := budget;
      this.expenses := expenses;
    }

    /** Ask for a new budget until a number is given, and replace the budget with it unconditionally. */
    method AskBudget(input: seq<string>, parseFloat: string -> Option<real>) returns (rest: seq<string>)
      modifies this`budget
      ensures FirstAccepted(input, parseFloat).Got? ==>
                budget == FirstAccepted(input, parseFloat).value && rest == FirstAccepted(input, parseFloat).rest
      ensures FirstAccepted(input, parseFloat).Eof? ==> budget == old(budget) && rest == []
    {
      var reply := AskUntil(input, parseFloat);
      match reply
      case Eof => rest := [];
      case Got(v, after) => budget := v; rest := after;
    }

    /** A budget of exactly 0 counts as not set: it is asked for once before the menu. */
    method AskBudgetIfUnset(input: seq<string>, parseFloat: string -> Option<real>) returns (rest: seq<string>)
      modifies this`budget
      ensures old(budget) != 0.0 ==> budget == old(budget) && rest == input
      ensures old(budget) == 0.0 && FirstAccepted(input, parseFloat).Got? ==>
                budget == FirstAccepted(input, parseFloat).value && rest == FirstAccepted(input, parseFloat).rest
      ensures old(budget) == 0.0 && FirstAccepted(input, parseFloat).Eof? ==> budget == 0.0 && rest == []
    {
      if budget == 0.0 {
        rest := AskBudget(input, parseFloat);
      } else {
        rest := input;
      }
    }

    /** `add_expense`: confirm if already over budget, read description and amount, confirm an overrun, append. */
    method AddExpense(input: seq<string>, parseFloat: string -> Option<real>) returns (r: AddResult)
      modifies this`expenses
      ensures r == AddDialogue(Balance(budget, old(expenses)), input, parseFloat)
      ensures expenses == old(expenses) + r.Appended()
    {
      var balance := Balance(budget, expenses);
      if balance < 0.0 {
        var goOn := YesOrNo(input);
        if goOn.Eof? {
          return AddResult([], None, []);
        }
        if !goOn.value {
          return AddResult([ContinueWhileOver(false)], None, goOn.rest);
        }
        var x := EnterAndAppend(balance, goOn.rest, parseFloat);
        r := x.(answers := [ContinueWhileOver(true)] + x.answers);
      } else {
        r := EnterAndAppend(balance, input, parseFloat);
      }
    }

    /** The rest of `add_expense` once any first confirmation is given: description, amount, overrun, append. */
    method EnterAndAppend(balance: real, input: seq<string>, parseFloat: string -> Option<real>) returns (r: AddResult)
      requires balance == Balance(budget, expenses)
      modifies this`expenses
      ensures r == EnterExpense(balance, input, parseFloat)
      ensures expenses == old(expenses) + r.Appended()
    {
      if input == [] {
        return AddResult([], None, []);
      }
      var description := input[0];
      var amount := AskUntil(input[1..], parseFloat);
      if amount.Eof? {
        return AddResult([Description(description)], None, []);
      }
      var given := [Description(description), Amount(amount.value)];
      var rest := amount.rest;
      if Balance(budget, expenses) - amount.value < 0.0 {
        var confirm := YesOrNo(rest);
        if confirm.Eof? {
          return AddResult(given, None, []);
        }
        given := given + [AcceptOverrun(confirm.value)];
        if !confirm.value {
          return AddResult(given, None, confirm.rest);
        }
        rest := confirm.rest;
      }
      var entry := Expense(description, amount.value);
      expenses := expenses + [entry];
      r := AddResult(given, Some(entry), rest);
    }

    /** `delete_budget_details`: on a non-empty list, remove the selected entry; the rest keep their order. */
    method DeleteExpense(input: seq<string>, parseInt: string -> Option<int>) returns (r: Change<Expense>)
      modifies this`expenses
      ensures r == DeleteDialogue(old(expenses), input, parseInt)
      ensures r.Changed? ==> r.index < |old(expenses)| && r.what == old(expenses)[r.index]
                             && expenses == RemoveAt(old(expenses), r.index)
      ensures !r.Changed? ==> expenses == old(expenses)
    {
      if |expenses| == 0 {
        return NothingToChange;
      }
      var choice := SelectExpense(expenses, input, parseInt);
      match choice
      case Eof =>
        r := InputEnded;
      case Got(i, rest) =>
        var deleted := expenses[i];
        expenses := RemoveAt(expenses, i);
        r := Changed(i, deleted, rest);
    }

    /** `edit_budget_details`: on a non-empty list, change one field of the selected entry in place. */
    method EditExpense(input: seq<string>, parseInt: string -> Option<int>, parseFloat: string -> Option<real>)
      returns (r: Change<Edit>)
      modifies this`expenses
      ensures r == EditDialogue(old(expenses), input, parseInt, parseFloat)
      ensures r.Changed? ==> r.index < |old(expenses)|
                             && expenses == old(expenses)[r.index := Apply(old(expenses)[r.index], r.what)]
      ensures !r.Changed? ==> expenses == old(expenses)
    {
      if |expenses| == 0 {
        return NothingToChange;
      }
      var choice := SelectExpense(expenses, input, parseInt);
      if choice.Eof? {
        return InputEnded;
      }
      var i := choice.value;
      var mode := AskUntil(choice.rest, EditModeAnswer);
      if mode.Eof? {
        return InputEnded;
      }
      var edit: Edit;
      var rest: seq<string>;
      match mode.value {
        case EditDescription =>
          if mode.rest == [] {
            return InputEnded;
          }
          edit, rest := NewDescription(mode.rest[0]), mode.rest[1..];
        case EditAmount =>
          var amount := AskUntil(mode.rest, parseFloat);
          if amount.Eof? {
            return InputEnded;
          }
          edit, rest := NewAmount(amount.value), amount.rest;
      }
      expenses := expenses[i := Apply(expenses[i], edit)];
      r := Changed(i, edit, rest);
    }

    /** One choice of the main menu; "2" only displays and any unknown choice is refused, neither changes anything. */
    method Dispatch(choice: string, input: seq<string>, parseFloat: string -> Option<real>,
                    parseInt: string -> Option<int>) returns (step: Step)
      modifies this
      ensures choice == "1" ==>
                var r := AddDialogue(Balance(old(budget), old(expenses)), input, parseFloat);
                budget == old(budget) && expenses == old(expenses) + r.Appended() && step == Continue(r.rest)
      ensures choice == "3" ==>
                var r := DeleteDialogue(old(expenses), input, parseInt);
                budget == old(budget) && step == Continue(r.Remaining(input))
                && expenses == if r.Changed? then RemoveAt(old(expenses), r.index) else old(expenses)
      ensures choice == "4" ==>
                var r := EditDialogue(old(expenses), input, parseInt, parseFloat);
                budget == old(budget) && step == Continue(r.Remaining(input))
                && expenses == if r.Changed? then old(expenses)[r.index := Apply(old(expenses)[r.index], r.what)]
                               else old(expenses)
      ensures choice == "5" ==>
                expenses == old(expenses)
                && (FirstAccepted(input, parseFloat).Got? ==>
                      budget == FirstAccepted(input, parseFloat).value
                      && step == Continue(FirstAccepted(input, parseFloat).rest))
                && (FirstAccepted(input, parseFloat).Eof? ==> budget == old(budget) && step == Continue([]))
      ensures choice == "6" ==> budget == old(budget) && expenses == old(expenses) && step == Exit
      ensures choice !in {"1", "3", "4", "5", "6"} ==>
                budget == old(budget) && expenses == old(expenses) && step == Continue(input)
      ensures step.Continue? ==> IsSuffix(step.rest, input)
      ensures var o := MenuChoice(choice, old(budget), old(expenses), input, parseFloat, parseInt);
              (o.Quit? <==> step.Exit?) && (o.Next? ==> o == Next(budget, expenses, step.rest))
    {
      if choice == "1" {
        var r := AddExpense(input, parseFloat);
        step := Continue(r.rest);
      } else if choice == "2" {
        step := Continue(input);
      } else if choice == "3" {
        var r := DeleteExpense(input, parseInt);
        step := Continue(r.Remaining(input));
      } else if choice == "4" {
        var r := EditExpense(input, parseInt, parseFloat);
        step := Continue(r.Remaining(input));
      } else if choice == "5" {
        var rest := AskBudget(input, parseFloat);
        step := Continue(rest);
      } else if choice == "6" {
        step := Exit;
      } else {
        step := Continue(input);
      }
    }

    /**
     * The session: ask for the budget if it is unset, then run the menu until
     * "6", which saves the state as it then is, or until the input runs out,
     * which ends the program without saving.  The result is what would be saved.
     */
    method Run(input: seq<string>, parseFloat: string -> Option<real>, parseInt: string -> Option<int>)
      returns (saved: Option<(real, seq<Expense>)>)
      modifies this
      ensures saved == Saved(old(budget), old(expenses), input, parseFloat, parseInt)
      ensures saved.Some? ==> saved.value == (budget, expenses)
      ensures saved.Some? ==> "6" in input
    {
      var pending := AskBudgetIfUnset(input, parseFloat);
      assert (budget, pending) == StartBudget(old(budget), input, parseFloat);
      while pending != []
        invariant IsSuffix(pending, input)
        invariant Session(budget, expenses, pending, parseFloat, parseInt)
                  == Saved(old(budget), old(expenses), input, parseFloat, parseInt)
        decreases |pending|
      {
        var choice := pending[0];
        assert choice == input[|input| - |pending|];
        ghost var b0, e0 := budget, expenses;
        var step := Dispatch(choice, pending[1..], parseFloat, parseInt);
        match step
        case Exit =>
          return Some((budget, expenses));
        case Continue(rest) =>
          SuffixTransitive(rest, pending[1..], pending);
          SuffixTransitive(rest, pending, input);
          assert Session(b0, e0, pending, parseFloat, parseInt) == Session(budget, expenses, rest, parseFloat, parseInt);
          pending := rest;
      }
      return None;
    }
  }
}
