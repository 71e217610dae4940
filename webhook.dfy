/**
 * The parsed webhook document as the handler sees it after `json.loads`,
 * and the exceptions the handler can raise while reading it.
 */
module Webhook {
  import opened Wrappers

  /**
   * A JSON value as far as the handler inspects it: a string, a number
   * (Python compares `8` and `8.0` equal to the literal 8, so both are
   * represented by their mathematical value), or anything else (null,
   * booleans, arrays, objects), none of which the handler can use.
   */
  datatype Value = Str(s: string) | Num(n: real) | Other

  /**
   * A TTN v2 uplink envelope, reduced to the three keys the handler reads.
   * A key missing from the JSON object is `None`.
   */
  datatype Envelope = Envelope(devId: Option<Value>, port: Option<Value>, payloadRaw: Option<Value>)

  /** The Python exceptions that can escape the handler. */
  datatype Fault =
    | KeyError(key: string)   // `data[key]` on a missing key
    | AttributeError          // `.startswith` on a value that is not a string
    | TypeError               // `b64decode` of a value that is neither str nor bytes
    | Base64Error             // `b64decode` of a malformed string: ValueError (binascii.Error for malformed ASCII input)
    | IndexError              // `p[3]` on fewer than four decoded bytes
}
