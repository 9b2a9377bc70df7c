/** Envelope checks of a bridge message (goblin_zomboid/protocol.py). */
module Protocol {

  const FUTURE_SLACK_MS := 60_000

  datatype Message = Message(id: string, ts: int, kind: string)

  /** What a JSON file decodes to: an envelope, or nothing usable. */
  datatype Content = Garbage | Envelope(message: Message)

  predicate AsciiAlnum(c: char) {
    'A' <= c <= 'Z' || 'a' <= c <= 'z' || '0' <= c <= '9'
  }

  /** REQUEST_ID_RE: up to 128 characters, the first one alphanumeric. */
  predicate ValidId(s: string) {
    0 < |s| <= 128 && AsciiAlnum(s[0])
    && forall i :: 0 < i < |s| ==> AsciiAlnum(s[i]) || s[i] in "._:-"
  }

  /** A letter or digit is an id, and ids joined by a separator are one, up to 128 characters; an id holds nothing but
      these, and starts with no separator. */
  lemma ValidIdIs(a: string, b: string, c: char)
    ensures AsciiAlnum(c) ==> ValidId([c])
    ensures ValidId(a) && ValidId(b) && |a| + |b| <= 128 ==> ValidId(a + b)
    ensures ValidId(a) && ValidId(b) && |a| + |b| < 128 && c in "._:-" ==> ValidId(a + [c] + b)
    ensures ValidId(a) ==> 1 <= |a| <= 128 && a[0] !in "._:-" && forall x :: x in a ==> AsciiAlnum(x) || x in "._:-"
  {}

  /** The timestamp window of Message.from_mapping: positive, not more than 60 s ahead, not stale. */
  predicate Fresh(ts: int, now: int, maxAge: int) {
    0 < ts <= now + FUTURE_SLACK_MS && now - ts <= maxAge
  }
}
