/** Shared vocabulary: optional values, the outcome of a request to the API,
    and the ASCII string operations the search box relies on. */
module Basics {

  /** A value that may be absent (`null`/`undefined` in the client, `None` on the server). */
  datatype Option<T> = None | Some(value: T)

  /** What an awaited API call produced: the response payload, or a rejection
      carrying the HTTP status (0 stands for a failure without a response). */
  datatype Reply<T> = Ok(value: T) | Fail(status: int)

  predicate IsUpper(c: char) {
    'A' <= c <= 'Z'
  }

  /** ASCII lower-casing of one character. */
  function LowerChar(c: char): (r: char)
    ensures !IsUpper(r)
    ensures !IsUpper(c) ==> r == c
    ensures IsUpper(c) ==> r as int - c as int == 32
  {
    if IsUpper(c) then (c as int + 32) as char else c
  }

  /** `toLowerCase()`, restricted to ASCII letters. */
  function Lower(s: string): (r: string)
    ensures |r| == |s|
    ensures forall i :: 0 <= i < |s| ==> r[i] == LowerChar(s[i])
  {
    seq(|s|, i requires 0 <= i < |s| => LowerChar(s[i]))
  }

  /** `hay.includes(needle)`: the needle occurs at some position of the hay. */
  predicate Contains(hay: string, needle: string)
    decreases |hay|
  {
    needle <= hay || (|hay| > 0 && Contains(hay[1..], needle))
  }

  /** The empty string occurs in every string, as `"abc".includes("")` is true. */
  lemma ContainsEmpty(hay: string)
    ensures Contains(hay, "")
  {
  }

  /** A string contains only needles no longer than itself. */
  lemma {:induction false} ContainsLonger(hay: string, needle: string)
    ensures Contains(hay, needle) ==> |needle| <= |hay|
    decreases |hay|
  {
    if |hay| > 0 && !(needle <= hay) {
      ContainsLonger(hay[1..], needle);
    }
  }

  /** Lowering is idempotent. */
  lemma LowerIdempotent(s: string)
    ensures Lower(Lower(s)) == Lower(s)
  {
  }
}
