/**
  Webhook secrets at rest: authenticated envelopes and the application's read path.

  Encryption is ideal: an envelope opens under the key it was sealed with and under no other key, and
  every sealing carries its own nonce, so re-encrypting a secret always yields different bytes.
*/
module Envelope {

  type Key = string

  /** What comes out of an opened envelope, before it is decoded as UTF-8. */
  datatype Plain = Text(text: string) | NotUtf8

  datatype Ciphertext = Sealed(key: Key, plain: Plain, nonce: nat) | Corrupt(bytes: seq<nat>)

  datatype Opened = Opened(text: string) | InvalidToken | BadEncoding

  function Seal(key: Key, text: string, nonce: nat): Ciphertext {
    Sealed(key, Text(text), nonce)
  }

  /** `Fernet(key).decrypt(c).decode("utf-8")`. */
  function Open(key: Key, c: Ciphertext): Opened {
    if c.Corrupt? || c.key != key then InvalidToken
    else match c.plain
      case Text(text) => Opened(text)
      case NotUtf8 => BadEncoding
  }

  /** The first key of the list that opens the envelope; a decoding failure is not retried. */
  function OpenWithFirst(keys: seq<Key>, c: Ciphertext): Opened {
    if keys == [] then InvalidToken
    else if Open(keys[0], c) == InvalidToken then OpenWithFirst(keys[1..], c)
    else Open(keys[0], c)
  }

  /** The application's read path: the primary key, then the fallbacks in order. */
  function Decrypt(primary: Key, fallbacks: seq<Key>, c: Ciphertext): Opened {
    if Open(primary, c) == InvalidToken then OpenWithFirst(fallbacks, c) else Open(primary, c)
  }

  lemma {:induction false} OpensUnderSomeKey(keys: seq<Key>, c: Ciphertext)
    ensures OpenWithFirst(keys, c) == if c.Sealed? && c.key in keys then Open(c.key, c) else InvalidToken
  {
    if keys == [] {
    } else {
      OpensUnderSomeKey(keys[1..], c);
    }
  }

  /** Which configurations can read an envelope: those that hold its key, in any position. */
  lemma DecryptNeedsOnlyTheKey(primary: Key, fallbacks: seq<Key>, c: Ciphertext, text: string)
    ensures Decrypt(primary, fallbacks, c) == Opened(text) <==>
            c.Sealed? && c.plain == Text(text) && (c.key == primary || c.key in fallbacks)
    ensures Decrypt(primary, fallbacks, c) == InvalidToken <==>
            c.Corrupt? || (c.key != primary && c.key !in fallbacks)
  {
    OpensUnderSomeKey(fallbacks, c);
  }
}
