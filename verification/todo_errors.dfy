/** The errors the todo services throw, by kind. */
module TodoErrors {

  datatype Error =
    | TextRequired     // create: text missing, falsy or not a string
    | TextNotString    // update: text supplied but not a string
    | TextEmpty        // text is white space only
    | TextTooLong      // text longer than 200 UTF-16 code units
    | IdRequired       // falsy id
    | NotFound         // no todo has the id
    | TodosNotArray    // the data file has no `todos` array: a TypeError

  /** The `message` of the thrown Error. The TypeError's text comes from
      the JavaScript engine and is not part of this model. */
  function Message(e: Error): string {
    match e
    case TextRequired => "Todo text is required and must be a string"
    case TextNotString => "Todo text must be a string"
    case TextEmpty => "Todo text cannot be empty"
    case TextTooLong => "Todo text cannot exceed 200 characters"
    case IdRequired => "Todo ID is required"
    case NotFound => "Todo not found"
    case TodosNotArray => "TypeError"
  }

  /** Each kind of error is thrown with its own message, so the message
      alone tells a caller which check failed. */
  lemma MessagesDistinct(a: Error, b: Error)
    requires Message(a) == Message(b)
    ensures a == b
  {
  }
}
