/** The exception kinds that cross the boundaries of the modelled code. */
module Exceptions {

  datatype Exception =
    | OpenAIError(message: string)      // openai.OpenAIError and its subclasses
    | ChatHelperError(message: string)  // ChatHelper.Error
    | TimeoutError                      // raised by asyncio.wait_for when the timer wins
    | PresenterError(message: string)   // Presenter.PresenterError
    | IOError(message: string)          // OSError, of which IOError is an alias
    | DeckError(message: string)        // what the slide-deck parser raises for a file it cannot open
    | IndexError                        // a list subscript out of range
    | JsonDecodeError(message: string)  // json.load on text that is not JSON

  /** `str(exception)`. */
  function Str(e: Exception): string {
    match e
    case TimeoutError => ""
    case IndexError => "list index out of range"
    case _ => e.message
  }
}
