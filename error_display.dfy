/**
 * The per-field error text of index.js (`addErrorText`, `setErrorState`,
 * `clearErrorState`), reduced to one optional message per field.
 */
module ErrorDisplay {
  import opened Wrappers

  /** The four messages the handler writes under a field. */
  datatype Message = Required | InvalidDay | NotInPast | TooManyDays

  /** The text shown for each message. */
  function Text(m: Message): string {
    match m
    case Required => "This field is required"
    case InvalidDay => "Must be a valid day"
    case NotInPast => "Must be in the past!"
    case TooManyDays => "Too many days for this month!"
  }

  /** Distinct messages show distinct texts, so a slot's text tells which message it holds. */
  lemma TextsDistinct(a: Message, b: Message)
    ensures Text(a) == Text(b) <==> a == b
  {
    if a != b {
      assert Text(a)[8] != Text(b)[8];
    }
  }

  /** The slot after `addErrorText(message)`: a message is added only when none is shown. */
  function AfterAdd(slot: Option<Message>, message: Message): Option<Message> {
    if slot.None? then Some(message) else slot
  }

  /** The slot after adding each of `messages` in turn. */
  ghost function AfterAddAll(slot: Option<Message>, messages: seq<Message>): Option<Message>
    decreases |messages|
  {
    if messages == [] then slot else AfterAddAll(AfterAdd(slot, messages[0]), messages[1..])
  }

  /** The first message added to an empty slot wins; a shown message is never replaced. */
  lemma {:induction false} FirstMessageWins(slot: Option<Message>, messages: seq<Message>)
    ensures AfterAddAll(slot, messages) ==
            if slot.Some? then slot
            else if messages == [] then None
            else Some(messages[0])
    decreases |messages|
  {
    if messages != [] {
      FirstMessageWins(AfterAdd(slot, messages[0]), messages[1..]);
    }
  }

  /** The error paragraph of one input field: at most one message. */
  class ErrorSlot {
    var message: Option<Message>

    constructor ()
      ensures message == None
    {
      message := None;
    }

    /** `addErrorText(field, message)` */
    method AddErrorText(text: Message)
      modifies this
      ensures message == AfterAdd(old(message), text)
    {
      if message.None? {
        message := Some(text);
      }
    }

    /** `setErrorState(field)`: adds "This field is required" unless a message is shown. */
    method SetErrorState()
      modifies this
      ensures message == AfterAdd(old(message), Required)
      ensures message.Some?
    {
      AddErrorText(Required);
    }

    /** `clearErrorState(field)`: removes the shown message, if any. */
    method ClearErrorState()
      modifies this
      ensures message == None
    {
      message := None;
    }
  }
}
