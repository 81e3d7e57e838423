/** The exceptions the SSCP client raises, as values. */
module Errors {

  datatype Error =
    | NotConnected              // login() before connect(): "Not connected to SSCP server."
    | ConnectFailed             // socket.connect raised
    | LoginFailed               // login reply code is not 81 00
    | BrokenPipe                // BrokenPipeError from sendall / recv
    | SocketError               // any other error from sendall / recv
    | ReconnectionFailed        // reconnect() wraps every failure in this
    | OutOfRange                // OverflowError of to_bytes, struct.error of struct.pack
    | FrameTooLarge             // "Data length exceeds 2 byte limit"
    | IndexError                // response[0] on an empty response
    | AddressMismatch           // "Response address mismatch"
    | ReadFailed                // read reply code C5 00
    | WriteFailed               // write reply code C5 10
    | UnexpectedFunctionCode    // any other reply code
    | UnknownFunction           // parse_response called for a function it does not know
    | DataLengthMismatch        // declared length differs from the received data
    | PayloadLength(typeName: string, expected: nat)  // "<TYPE> type expects n byte(s)"
    | UnsupportedType(typeName: string)               // "Unsupported type: ..."
    | InvalidLiteral            // ValueError of int(text, base)
    | FloatNotModelled          // a conversion to or from a Python float

  datatype Result<+T> = Ok(value: T) | Err(error: Error)
}
