/** The header field names the program uses, and how names compare. */
module FieldNames {
  const ACCEPT_RANGES := "Accept-Ranges"
  const CONNECTION := "Connection"
  const CONTENT_LENGTH := "Content-Length"
  const CONTENT_RANGE := "Content-Range"
  const CONTENT_TYPE := "Content-Type"
  const RANGE := "Range"
  const TRANSFER_ENCODING := "Transfer-Encoding"

  function Lower(c: char): char { if 'A' <= c <= 'Z' then (c as int + 32) as char else c }

  /** Field names are case-insensitive (RFC 9110 section 5.1). */
  predicate SameName(a: string, b: string) {
    |a| == |b| && forall i :: 0 <= i < |a| ==> Lower(a[i]) == Lower(b[i])
  }

  /** A field that says where a message ends (RFC 9112 section 6). */
  predicate DelimitsMessage(name: string) { SameName(name, CONTENT_LENGTH) || SameName(name, TRANSFER_ENCODING) }

  lemma NamesDiffer()
    ensures CONTENT_RANGE != ACCEPT_RANGES && CONTENT_RANGE != CONTENT_TYPE && ACCEPT_RANGES != CONTENT_TYPE
    ensures DelimitsMessage(CONTENT_LENGTH)
    ensures !DelimitsMessage(CONTENT_RANGE) && !DelimitsMessage(ACCEPT_RANGES) && !DelimitsMessage(CONTENT_TYPE)
    ensures !DelimitsMessage(CONNECTION)
  {
    assert CONTENT_RANGE[0] != ACCEPT_RANGES[0];
    assert |CONTENT_RANGE| == |ACCEPT_RANGES| == 13 && |CONTENT_TYPE| == 12 && |CONNECTION| == 10;
    assert |CONTENT_LENGTH| == 14 && |TRANSFER_ENCODING| == 17;
  }
}
