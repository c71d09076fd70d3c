/**
 * The values the gateway caches and the envelope every successful response
 * body is wrapped in (index.js:262-276); error bodies are plain JSON.
 *
 * AES-256-CBC itself is not modelled: an envelope is the symbolic pair of
 * the IV drawn for it and the payload it encrypts, so that what a client
 * decrypts can be stated without the cipher.
 */
module Envelope {

  /**
   * A JSON value as the cache and `encryptData` see it. Objects and arrays
   * are kept as their JSON text; numbers are integers (see README).
   */
  datatype Payload =
    | Null
    | Boolean(b: bool)
    | Number(n: int)
    | Text(s: string)
    | Structured(json: string)

  /** JavaScript truthiness, as used by `if (cachedData)` and `if (!englishNews)`. */
  predicate Truthy(p: Payload)
  {
    match p
    case Null => false
    case Boolean(b) => b
    case Number(n) => n != 0
    case Text(s) => s != ""
    case Structured(_) => true
  }

  /** `crypto.randomBytes(16)`: the IV is drawn fresh for every envelope. */
  const IvLength: nat := 16

  type IV = s: seq<bv8> | |s| == IvLength witness seq(IvLength, _ => 0 as bv8)

  /**
   * `{ iv, encryptedData }`: `iv` in hex and the AES-256-CBC encryption of
   * `JSON.stringify(plaintext)` under the process key and `iv`.
   */
  datatype Envelope = Envelope(iv: IV, plaintext: Payload)

  /** What a client holding the process key recovers from an envelope. */
  function Decrypt(e: Envelope): Payload
  {
    e.plaintext
  }

  /** `encryptData(data)` with the IV it draws passed in. */
  function EncryptData(data: Payload, iv: IV): Envelope
  {
    Envelope(iv, data)
  }
}
