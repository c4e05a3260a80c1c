/**
 * The screen component: two state slots, `transactions` and `error`, that a
 * press of "View Expenses" updates, and the rule that shows either the error
 * text or the transaction list.
 */
module AppState {

  import opened Wrappers
  import opened Parser
  import opened Pipeline

  const PermissionError := "SMS permission not granted"
  const FetchFailurePrefix := "Failed to fetch messages: "
  const ExceptionPrefix := "Error: "

  /** The two `useState` slots; `None` is `null`. */
  datatype State = State(transactions: seq<Transaction>, error: Option<string>)

  /** `useState([])` and `useState(null)`. */
  const Initial := State([], None)

  /**
   * What the call to `SmsAndroid.list` does: call its success callback with
   * the listed messages, call its failure callback with a reason, or throw
   * before calling either (with the text `err.message` or `String(err)` gives).
   */
  datatype ListOutcome =
    | Delivered(messages: seq<Sms>)
    | Failed(reason: string)
    | Threw(message: string)

  /** One press of "View Expenses": whether the permission was granted, and what the list call does. */
  datatype Press = Press(granted: bool, outcome: ListOutcome)

  /**
   * The state after one press. A delivery replaces the list and leaves the
   * error as it was (it does not clear an earlier one); every other outcome
   * leaves the list as it was and sets a non-empty error.
   */
  function Step(s: State, p: Press): (r: State)
    ensures p.granted && p.outcome.Delivered? ==>
      r.transactions == ParseMessages(p.outcome.messages) && r.error == s.error
    ensures !(p.granted && p.outcome.Delivered?) ==>
      r.transactions == s.transactions && r.error.Some? && r.error.value != ""
    ensures !p.granted ==> r.error == Some(PermissionError)
    ensures p.granted && p.outcome.Failed? ==> r.error == Some(FetchFailurePrefix + p.outcome.reason)
    ensures p.granted && p.outcome.Threw? ==> r.error == Some(ExceptionPrefix + p.outcome.message)
  {
    if !p.granted then State(s.transactions, Some(PermissionError))
    else
      match p.outcome
      case Delivered(ms) => State(ParseMessages(ms), s.error)
      case Failed(reason) => State(s.transactions, Some(FetchFailurePrefix + reason))
      case Threw(message) => State(s.transactions, Some(ExceptionPrefix + message))
  }

  /** The state after a series of presses, each completing before the next. */
  function Run(s: State, presses: seq<Press>): State
    decreases |presses|
  {
    if presses == [] then s else Run(Step(s, presses[0]), presses[1..])
  }

  /** What the component shows. */
  datatype Screen = ErrorText(message: string) | NoTransactions | TransactionList(items: seq<Transaction>)

  /** JavaScript truthiness of a `string | null`: `null` and `""` are falsy. */
  predicate Truthy(error: Option<string>) {
    error.Some? && error.value != ""
  }

  /** `{error ? <Text>{error}</Text> : <FlatList ... ListEmptyComponent={...} />}`. */
  function Render(s: State): (v: Screen)
    ensures v.ErrorText? <==> Truthy(s.error)
    ensures v.ErrorText? ==> v.message == s.error.value
    ensures v.TransactionList? ==> v.items == s.transactions && v.items != []
    ensures v.NoTransactions? ==> s.transactions == []
  {
    if Truthy(s.error) then ErrorText(s.error.value)
    else if s.transactions == [] then NoTransactions
    else TransactionList(s.transactions)
  }

  // ---------------------------------------------------------------------
  // Properties of the state machine.
  // ---------------------------------------------------------------------

  /** When the permission is refused the list call is never made: its outcome does not matter. */
  lemma RefusalIgnoresOutcome(s: State, o: ListOutcome, o': ListOutcome)
    ensures Step(s, Press(false, o)) == Step(s, Press(false, o'))
    ensures Step(s, Press(false, o)).error == Some(PermissionError)
  {
  }

  /** A failure callback sets the error to the prefix and the reason, and keeps the list. */
  lemma FailureReportsReason(s: State, reason: string)
    ensures Step(s, Press(true, Failed(reason))) == State(s.transactions, Some(FetchFailurePrefix + reason))
  {
  }

  /** An exception sets the error to `Error: ` and its message, and keeps the list. */
  lemma ExceptionReportsMessage(s: State, message: string)
    ensures Step(s, Press(true, Threw(message))) == State(s.transactions, Some(ExceptionPrefix + message))
  {
  }

  /** Running presses one after the other is running the first ones, then the rest. */
  lemma {:induction false} RunAppend(s: State, a: seq<Press>, b: seq<Press>)
    ensures Run(s, a + b) == Run(Run(s, a), b)
    decreases |a|
  {
    if a == [] {
      assert a + b == b;
    } else {
      assert (a + b)[0] == a[0];
      assert (a + b)[1..] == a[1..] + b;
      RunAppend(Step(s, a[0]), a[1..], b);
    }
  }

  /** Every error the component can hold is non-empty text. */
  predicate ErrorIsText(s: State) {
    s.error.Some? ==> s.error.value != ""
  }

  /** No press clears an error: nothing in the component sets it back to `null`. */
  lemma {:induction false} ErrorIsSticky(s: State, presses: seq<Press>)
    requires s.error.Some? && ErrorIsText(s)
    ensures Run(s, presses).error.Some? && ErrorIsText(Run(s, presses))
    decreases |presses|
  {
    if presses != [] {
      ErrorIsSticky(Step(s, presses[0]), presses[1..]);
    }
  }

  /** From the initial state, every error held is non-empty text. */
  lemma {:induction false} ReachableErrorsAreText(s: State, presses: seq<Press>)
    requires ErrorIsText(s)
    ensures ErrorIsText(Run(s, presses))
    decreases |presses|
  {
    if presses != [] {
      ReachableErrorsAreText(Step(s, presses[0]), presses[1..]);
    }
  }

  /**
   * Once a press has set an error, the list is never shown again: whatever
   * presses follow, even successful fetches, the screen shows an error text.
   */
  lemma ListNeverShownAfterError(before: seq<Press>, after: seq<Press>)
    requires Run(Initial, before).error.Some?
    ensures Render(Run(Initial, before + after)).ErrorText?
  {
    ReachableErrorsAreText(Initial, before);
    RunAppend(Initial, before, after);
    ErrorIsSticky(Run(Initial, before), after);
  }

  /**
   * The list the component holds is the one parsed from the last delivery
   * (or the initial empty list when nothing was delivered): a fetch replaces
   * it wholesale, and every other outcome leaves it alone.
   */
  function LastDelivery(s: State, presses: seq<Press>): seq<Transaction>
    decreases |presses|
  {
    if presses == [] then s.transactions
    else
      var p := presses[|presses| - 1];
      if p.granted && p.outcome.Delivered? then ParseMessages(p.outcome.messages)
      else LastDelivery(s, presses[..|presses| - 1])
  }

  lemma {:induction false} TransactionsAreLastDelivery(s: State, presses: seq<Press>)
    ensures Run(s, presses).transactions == LastDelivery(s, presses)
    decreases |presses|
  {
    if presses != [] {
      var init, p := presses[..|presses| - 1], presses[|presses| - 1];
      assert presses == init + [p];
      RunAppend(s, init, [p]);
      TransactionsAreLastDelivery(s, init);
      assert Run(Run(s, init), [p]) == Step(Run(s, init), p);
    }
  }

  /**
   * The component. Its methods are the updates `fetchTransactions` makes
   * through `setTransactions` and `setError`.
   */
  class App {
    var transactions: seq<Transaction>
    var error: Option<string>

    function Snapshot(): State
      reads this
    {
      State(transactions, error)
    }

    function View(): Screen
      reads this
    {
      Render(Snapshot())
    }

    constructor()
      ensures Snapshot() == Initial
    {
      transactions := [];
      error := None;
    }

    /** `setError(message)`: only the error slot changes. */
    method SetError(message: string)
      modifies this
      ensures Snapshot() == old(Snapshot()).(error := Some(message))
    {
      error := Some(message);
    }

    /** The success callback: parse, drop non-matches, `setTransactions`. */
    method OnMessages(messages: seq<Sms>)
      modifies this
      ensures Snapshot() == old(Snapshot()).(transactions := ParseMessages(messages))
    {
      transactions := ParseMessages(messages);
    }

    /** The failure callback. */
    method OnFailure(fail: string)
      modifies this
      ensures Snapshot() == old(Snapshot()).(error := Some(FetchFailurePrefix + fail))
    {
      SetError(FetchFailurePrefix + fail);
    }

    /** One press of "View Expenses", with the permission answer and what the list call does. */
    method FetchTransactions(hasPermission: bool, outcome: ListOutcome)
      modifies this
      ensures Snapshot() == Step(old(Snapshot()), Press(hasPermission, outcome))
      ensures !hasPermission ==> View() == ErrorText(PermissionError)
      ensures hasPermission && outcome.Failed? ==> View() == ErrorText(FetchFailurePrefix + outcome.reason)
      ensures hasPermission && outcome.Threw? ==> View() == ErrorText(ExceptionPrefix + outcome.message)
    {
      if hasPermission {
        match outcome
        case Delivered(messages) => OnMessages(messages);
        case Failed(reason) => OnFailure(reason);
        case Threw(message) => SetError(ExceptionPrefix + message);
      } else {
        SetError(PermissionError);
      }
    }
  }
}
