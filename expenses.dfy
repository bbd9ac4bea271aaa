/**
 * The record store: expense records, the derived totals, and the pure changes
 * an operation makes to the list of records.
 */
module Expenses {

  /** One spending entry; amounts are exact reals and may be negative or zero. */
  datatype Expense = Expense(description: string, amount: real)

  /** The sum of all amounts, added from the first entry to the last. */
  function Total(expenses: seq<Expense>): real
    decreases |expenses|
  {
    if expenses == [] then 0.0
    else Total(expenses[..|expenses| - 1]) + expenses[|expenses| - 1].amount
  }

  /** What is left of the budget; negative when the expenses exceed it. */
  function Balance(budget: real, expenses: seq<Expense>): real {
    budget - Total(expenses)
  }

  /** The total of two lists laid end to end is the sum of their totals. */
  lemma {:induction false} TotalConcat(a: seq<Expense>, b: seq<Expense>)
    ensures Total(a + b) == Total(a) + Total(b)
    decreases |b|
  {
    if b == [] {
      assert a + b == a;
    } else {
      var b' := b[..|b| - 1];
      assert (a + b)[..|a + b| - 1] == a + b';
      TotalConcat(a, b');
    }
  }

  /** Adding one entry at the end lowers the balance by its amount. */
  lemma BalanceAppend(budget: real, expenses: seq<Expense>, e: Expense)
    ensures Balance(budget, expenses + [e]) == Balance(budget, expenses) - e.amount
  {
    assert (expenses + [e])[..|expenses|] == expenses;
  }

  /** The list without its entry at index i. */
  function RemoveAt(s: seq<Expense>, i: nat): (r: seq<Expense>)
    requires i < |s|
    ensures |r| == |s| - 1
    ensures forall j :: 0 <= j < i ==> r[j] == s[j]
    ensures forall j :: i <= j < |r| ==> r[j] == s[j + 1]
    ensures multiset(s) == multiset(r) + multiset{s[i]}
  {
    assert s == s[..i] + [s[i]] + s[i + 1..];
    s[..i] + s[i + 1..]
  }

  /** Removing an entry raises the balance by its amount. */
  lemma BalanceRemoveAt(budget: real, s: seq<Expense>, i: nat)
    requires i < |s|
    ensures Balance(budget, RemoveAt(s, i)) == Balance(budget, s) + s[i].amount
  {
    assert s == s[..i] + [s[i]] + s[i + 1..];
    TotalConcat(s[..i] + [s[i]], s[i + 1..]);
    TotalConcat(s[..i], [s[i]]);
    TotalConcat(s[..i], s[i + 1..]);
    assert Total([s[i]]) == s[i].amount;
  }

  /** The two kinds of in-place edit: a new description, or a new amount. */
  datatype Edit = NewDescription(text: string) | NewAmount(value: real)

  /** The record after an edit; exactly the named field changes. */
  function Apply(e: Expense, edit: Edit): (r: Expense)
    ensures edit.NewDescription? ==> r.description == edit.text && r.amount == e.amount
    ensures edit.NewAmount? ==> r.amount == edit.value && r.description == e.description
  {
    match edit
    case NewDescription(text) => e.(description := text)
    case NewAmount(value) => e.(amount := value)
  }

  /** Editing entry i changes the total by the difference of the amounts. */
  lemma BalanceUpdateAt(budget: real, s: seq<Expense>, i: nat, e: Expense)
    requires i < |s|
    ensures Balance(budget, s[i := e]) == Balance(budget, s) + s[i].amount - e.amount
  {
    var t := s[i := e];
    assert s == s[..i] + [s[i]] + s[i + 1..];
    assert t == s[..i] + [e] + s[i + 1..];
    TotalConcat(s[..i] + [s[i]], s[i + 1..]);
    TotalConcat(s[..i], [s[i]]);
    TotalConcat(s[..i] + [e], s[i + 1..]);
    TotalConcat(s[..i], [e]);
    assert Total([s[i]]) == s[i].amount;
    assert Total([e]) == e.amount;
  }

  /** Worked figures: no entries total 0; 10 + 5.5 is 15.5; a budget of 100 leaves 70 after 30, and -50 after 150. */
  lemma TotalsOfExamples()
    ensures Total([]) == 0.0
    ensures Total([Expense("A", 10.0), Expense("B", 5.5)]) == 15.5
    ensures Balance(100.0, [Expense("A", 30.0)]) == 70.0
    ensures Balance(100.0, [Expense("A", 150.0)]) == -50.0
  {
    var two := [Expense("A", 10.0), Expense("B", 5.5)];
    assert two[..1] == [Expense("A", 10.0)];
    assert [Expense("A", 10.0)][..0] == [];
  }
}
