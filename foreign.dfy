/** The collaborators this core calls but does not define, each kept
    abstract as a function value: identifier sanitising from the utilities
    module, the WHATWG URL parser, JavaScript's numeric coercion, UTF-8
    text encoding, the Web Crypto AES-GCM primitives (NIST SP 800-38D) and
    base64 (section 4 of RFC 4648, through `btoa`/`atob`). Nothing about
    them is assumed except where a lemma names one of the round-trip
    predicates below. */
module Foreign {
  import opened ShortUrlTypes

  newtype byte = x: int | 0 <= x < 256

  /** What `new URL(text)` exposes to the core: `host` and `toString()`. */
  datatype Url = Url(host: string, href: string)

  datatype Env = Env(
    /** `sanitize` from the utilities module. */
    sanitize: string -> string,
    /** `new URL(text)`: `None` when the constructor throws. */
    parseUrl: string -> Option<Url>,
    /** `!isNaN(text)`: the string coerces to a number. */
    numericText: string -> bool,
    /** `new TextEncoder().encode(text)`. */
    utf8Encode: string -> seq<byte>,
    /** `new TextDecoder().decode(bytes)`. */
    utf8Decode: seq<byte> -> string,
    /** `crypto.subtle.importKey('raw', bytes, 'AES-GCM', ...)` succeeds. */
    keyImportable: seq<byte> -> bool,
    /** AES-GCM encryption of `plain` under raw `key` with nonce `iv`; `None` when it rejects. */
    encrypt: (seq<byte>, seq<byte>, seq<byte>) -> Option<seq<byte>>,
    /** AES-GCM decryption; `None` when authentication fails or it rejects. */
    decrypt: (seq<byte>, seq<byte>, seq<byte>) -> Option<seq<byte>>,
    /** `btoa(String.fromCharCode(...bytes))`. */
    base64Encode: seq<byte> -> string,
    /** `atob(text)` read back as bytes; `None` when `atob` throws. */
    base64Decode: string -> Option<seq<byte>>,
    /** `NEXTAUTH_SECRET`, the process-wide secret used as the nonce. */
    secret: string)

  /** Decrypting what was encrypted under the same key and nonce gives the plaintext back. */
  ghost predicate CipherRoundTrip(e: Env) {
    forall k, iv, p :: e.encrypt(k, iv, p).Some? ==> e.decrypt(k, iv, e.encrypt(k, iv, p).value) == Some(p)
  }

  /** `atob(btoa(x))` gives the bytes back. */
  ghost predicate Base64RoundTrip(e: Env) {
    forall b :: e.base64Decode(e.base64Encode(b)) == Some(b)
  }

  /** Decoding encoded text gives the text back. */
  ghost predicate Utf8RoundTrip(e: Env) {
    forall s :: e.utf8Decode(e.utf8Encode(s)) == s
  }
}
