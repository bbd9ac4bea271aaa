/**
 * Prompting the user.  Every `input()` call of the program takes the next line of
 * a scripted input, a sequence of strings; when the script is used up the program
 * ends (the Python program's `input()` raises EOFError, which nothing catches).
 * Every number prompt and yes/no question is a retry loop: read a line, try to
 * accept it, and on failure read the next one, until some line is accepted.  The
 * other reads (descriptions, the menu choice) take one line as it is.
 */
module Prompt {
  import opened Wrappers

  /** What a prompt obtains: an accepted value and the lines left unread, or the end of the input. */
  datatype Reply<+T> = Got(value: T, rest: seq<string>) | Eof

  /** rest is what is left of input once some of its first lines have been read. */
  predicate IsSuffix(rest: seq<string>, input: seq<string>) {
    |rest| <= |input| && rest == input[|input| - |rest|..]
  }

  lemma SuffixTransitive(a: seq<string>, b: seq<string>, c: seq<string>)
    requires IsSuffix(a, b) && IsSuffix(b, c)
    ensures IsSuffix(a, c)
  {
    var k := |c| - |b|;
    assert forall j :: 0 <= j < |a| ==> a[j] == b[|b| - |a| + j] == c[k + |b| - |a| + j];
  }

  /** Reading from `input` until a line is accepted: the value of the first accepted line, and what follows it. */
  function FirstAccepted<T>(input: seq<string>, accept: string -> Option<T>): (r: Reply<T>)
    ensures r.Got? ==> |r.rest| < |input| && IsSuffix(r.rest, input)
    ensures r.Got? ==> accept(input[|input| - |r.rest| - 1]) == Some(r.value)
    decreases |input|
  {
    if input == [] then Eof
    else
      match accept(input[0])
      case Some(v) => Got(v, input[1..])
      case None => FirstAccepted(input[1..], accept)
  }

  /** The prompt settles on line k with value v exactly when line k is accepted as v and no earlier line is accepted. */
  lemma {:induction false} FirstAcceptedAt<T>(input: seq<string>, accept: string -> Option<T>, k: nat, v: T)
    requires k < |input|
    ensures FirstAccepted(input, accept) == Got(v, input[k + 1..]) <==>
              accept(input[k]) == Some(v) && forall j :: 0 <= j < k ==> accept(input[j]).None?
    decreases k
  {
    if k > 0 {
      FirstAcceptedAt(input[1..], accept, k - 1, v);
      assert input[1..][k..] == input[k + 1..];
      assert forall j :: 0 < j <= k ==> input[1..][j - 1] == input[j];
      if FirstAccepted(input, accept) == Got(v, input[k + 1..]) {
        assert |input[k + 1..]| < |input| - 1;
      }
    }
  }

  /** The prompt runs into the end of the input exactly when no line is accepted. */
  lemma {:induction false} FirstAcceptedEof<T>(input: seq<string>, accept: string -> Option<T>)
    ensures FirstAccepted(input, accept).Eof? <==> forall j :: 0 <= j < |input| ==> accept(input[j]).None?
    decreases |input|
  {
    if input != [] {
      FirstAcceptedEof(input[1..], accept);
      assert forall j :: 0 < j < |input| ==> input[1..][j - 1] == input[j];
    }
  }

  /** The request-validate-reprompt loop: read lines until one is accepted. */
  method AskUntil<T>(input: seq<string>, accept: string -> Option<T>) returns (r: Reply<T>)
    ensures r == FirstAccepted(input, accept)
  {
    var i := 0;
    while i < |input|
      invariant i <= |input|
      invariant FirstAccepted(input, accept) == FirstAccepted(input[i..], accept)
    {
      var answer := accept(input[i]);
      if answer.Some? {
        return Got(answer.value, input[i + 1..]);
      }
      assert input[i..][1..] == input[i + 1..];
      i := i + 1;
    }
    return Eof;
  }

  /** The answers a yes/no question accepts. */
  function YesNoAnswer(line: string): Option<bool> {
    if line == "y" then Some(true)
    else if line == "n" then Some(false)
    else None
  }

  /** A yes/no question: every line other than "y" and "n" is refused and the question repeated. */
  method YesOrNo(input: seq<string>) returns (r: Reply<bool>)
    ensures r == FirstAccepted(input, YesNoAnswer)
    ensures r.Got? ==>
              var k := |input| - |r.rest| - 1;
              0 <= k < |input| && r.rest == input[k + 1..]
              && (input[k] == "y" || input[k] == "n") && (r.value <==> input[k] == "y")
              && forall j :: 0 <= j < k ==> input[j] != "y" && input[j] != "n"
    ensures r.Eof? <==> forall j :: 0 <= j < |input| ==> input[j] != "y" && input[j] != "n"
  {
    r := AskUntil(input, YesNoAnswer);
    FirstAcceptedEof(input, YesNoAnswer);
    if r.Got? {
      FirstAcceptedAt(input, YesNoAnswer, |input| - |r.rest| - 1, r.value);
    }
  }
}
