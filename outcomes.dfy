/** Results and the Python exceptions that the two drivers raise. */
module Outcomes {

  datatype Option<+T> = None | Some(value: T)

  /** The exceptions a driver call can end in, named after what the Python code raises. */
  datatype PyError =
    | TypeError                              // `cli` given something that is not a list
    | CommandRejected(command: string)       // ValueError: 'Unable to execute command "<command>"'
    | UnexpectedOutput(tokens: seq<string>)  // ValueError: "Unexpected output from: <tokens>"
    | UnexpectedResponse                     // ValueError: "Unexpected Response from the device"
    | InvalidInt(literal: string)            // ValueError raised by `int(literal)`
    | IndexError                             // a missing list element, or `pop(0)` on an empty list
    | NameError                              // evaluating the undefined `mac-address-table`
    | AttributeError                         // no connection: `open` never succeeded
    | ConnectionException(host: string, port: int)  // `open` of the first driver failed
    | ConnectFailed                          // `open` of the second driver: the transport's own exception
    | LocalCopyFailed                        // `copyfile` of a candidate into `$HOME/tmp` failed

  datatype Result<+T> = Ok(value: T) | Err(error: PyError)
}
