/** Go strings and byte slices: sequences of 8-bit characters. */
module Bytes {

  type byte = c: char | c as int < 256 witness 'a'
  type bytes = seq<byte>

  datatype Option<+T> = None | Some(value: T)

  const NUL: byte := '\0'
  const ESC: byte := 27 as char

  /** What marks the library's own output. */
  const RECORD_PREFIX: bytes := "TGO1:"
  const GUARD_PREFIX: bytes := "TGO-GUARD-1:"

  /** strings.TrimSuffix(s, "\n"). */
  function TrimNewline(s: bytes): bytes {
    if s != [] && s[|s| - 1] == '\n' then s[..|s| - 1] else s
  }

  predicate NulFree(s: bytes) {
    NUL !in s
  }

  lemma Assoc(a: bytes, b: bytes, c: bytes)
    ensures a + b + c == a + (b + c)
  {
  }

  /** What a bounded buffer keeps of s. */
  function First(limit: nat, s: bytes): bytes {
    if |s| <= limit then s else s[..limit]
  }

  lemma FirstAppend(limit: nat, a: bytes, b: bytes)
    ensures First(limit, a) + First(limit - |First(limit, a)|, b) == First(limit, a + b)
  {
  }

  /** Concatenation of a list of byte strings. */
  function Concat(parts: seq<bytes>): bytes {
    if parts == [] then [] else parts[0] + Concat(parts[1..])
  }
}
