/**
 NUL-terminated strings in a buffer.
 */
module CStrings {

  /** The C string at an index of the buffer. */
  function CString(b: seq<char>, at: nat): string
    decreases |b| - at
  {
    if at < |b| && b[at] != '\0' then [b[at]] + CString(b, at + 1) else ""
  }

  /** The text and its terminator are in the buffer. */
  predicate TextAt(b: seq<char>, at: nat, text: string) {
    && at + |text| < |b|
    && b[at + |text|] == '\0'
    && forall k | 0 <= k < |text| :: b[at + k] == text[k] != '\0'
  }

  lemma {:induction false} TextIsCString(b: seq<char>, at: nat, text: string)
    requires TextAt(b, at, text)
    ensures CString(b, at) == text
    decreases |text|
  {
    if |text| > 0 {
      forall k | 0 <= k < |text| - 1
        ensures b[at + 1 + k] == text[1..][k] != '\0'
      {
        assert b[at + (k + 1)] == text[k + 1];
      }
      TextIsCString(b, at + 1, text[1..]);
      assert [text[0]] + text[1..] == text;
    }
  }

  lemma TextPlaced(b: seq<char>, at: nat, text: string)
    requires at + |text| < |b| && b[at..at + |text|] == text && b[at + |text|] == '\0' && '\0' !in text
    ensures TextAt(b, at, text)
  {
    forall k | 0 <= k < |text|
      ensures b[at + k] == text[k] != '\0'
    {
      assert b[at..at + |text|][k] == text[k];
    }
  }
}
