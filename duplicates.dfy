/** Duplicate detection: the search text built by `check_duplicate`, the subject lookup
    of `_get_subject` and the comparison of `_check_message_duplicate`. */
module Duplicates {
  import opened Wrappers
  import opened Lists
  import opened Listing

  /** Fingerprints closer than this many bits count as the same body. */
  const SIMHASH_DISTANCE: nat := 3

  /** One header of the parsed MIME message, as `(name, value)`. */
  datatype Header = Header(name: string, value: string)

  /** The MIME structure the comparison looks at: the payload of a single-part
      message, or the part count of a multipart one together with its first part
      decoded with its charset (`None` when that decoding fails). */
  datatype Body =
    | SinglePart(payload: string)
    | MultiPart(partCount: nat, firstPart: Option<string>)

  /** A message fetched in raw form: its id, thread id, encoded `raw` content, `snippet`,
      `internalDate` (milliseconds) and what parsing `raw` gives. */
  datatype Message = Message(
    id: Id,
    threadId: Id,
    raw: string,
    snippet: string,
    internalDate: nat,
    headers: seq<Header>,
    body: Body)

  /** The characters `[\w\s0-9']` keeps, with Python 2's ASCII classes: letters, digits
      and `_`, the whitespace ` \t\n\r\x0b\x0c`, and the apostrophe. */
  predicate Allowed(c: char) {
    || 'a' <= c <= 'z' || 'A' <= c <= 'Z' || '0' <= c <= '9' || c == '_'
    || c == ' ' || c == '\t' || c == '\n' || c == '\r' || c as int == 11 || c as int == 12
    || c == '\''
  }

  /** `re.sub(r'[^\w\s0-9\']', ' ', s)`. */
  function Sanitize(s: string): (r: string)
    ensures |r| == |s|
    ensures forall i | 0 <= i < |s| && Allowed(s[i]) :: r[i] == s[i]
    ensures forall i | 0 <= i < |s| && !Allowed(s[i]) :: r[i] == ' '
    ensures forall i | 0 <= i < |r| :: Allowed(r[i])
  {
    seq(|s|, i requires 0 <= i < |s| => if Allowed(s[i]) then s[i] else ' ')
  }

  /** Sanitising twice changes nothing more. */
  lemma SanitizeIdempotent(s: string)
    ensures Sanitize(Sanitize(s)) == Sanitize(s)
  {
  }

  /** The search text of `check_duplicate`:
      `subject:"<subject>" after:<day> before:<next day> "<snippet>"`. */
  function DuplicateQuery(subject: string, snippet: string, after: string, before: string): string {
    "subject:\"" + Sanitize(subject) + "\" after:" + after + " before:" + before + " \"" + Sanitize(snippet) + "\""
  }

  /** Sanitised text holds no double quote, so the quoted subject phrase closes right
      after the subject and the quoted snippet phrase opens right before the snippet,
      whatever the subject, snippet and dates hold. */
  lemma QuotedPhrasesIntact(subject: string, snippet: string, after: string, before: string)
    ensures var q := DuplicateQuery(subject, snippet, after, before);
      var m := |snippet|;
      && |q| == 9 + |subject| + 8 + |after| + 8 + |before| + 2 + m + 1
      && q[..9] == "subject:\""
      && q[9..9 + |subject|] == Sanitize(subject)
      && q[9 + |subject|] == '"'
      && (forall i | 9 <= i < 9 + |subject| :: q[i] != '"')
      && q[|q| - 2 - m] == '"' && q[|q| - 1] == '"'
      && q[|q| - 1 - m..|q| - 1] == Sanitize(snippet)
      && (forall i | |q| - 1 - m <= i < |q| - 1 :: q[i] != '"')
  {
    var q := DuplicateQuery(subject, snippet, after, before);
    var head := "subject:\"" + Sanitize(subject);
    var mid := "\" after:" + after + " before:" + before + " \"";
    var tail := Sanitize(snippet) + "\"";
    assert q == head + mid + tail;
    assert q[..|head|] == head;
    assert head[9..] == Sanitize(subject);
    assert q[|head| + |mid|..] == tail;
    forall i | 9 <= i < 9 + |subject|
      ensures q[i] != '"'
    {
      assert q[i] == Sanitize(subject)[i - 9];
    }
    forall i | |q| - 1 - |snippet| <= i < |q| - 1
      ensures q[i] != '"'
    {
      assert q[i] == Sanitize(snippet)[i - (|q| - 1 - |snippet|)];
    }
  }

  /** `c.lower()` on an ASCII character. */
  function AsciiLower(c: char): char {
    if 'A' <= c <= 'Z' then (c as int + 32) as char else c
  }

  /** `h.lower() == u'subject'`: any capitalisation of "subject". */
  predicate IsSubjectName(name: string) {
    |name| == 7 && forall i | 0 <= i < 7 :: AsciiLower(name[i]) == "subject"[i]
  }

  predicate IsSubjectHeader(h: Header) {
    IsSubjectName(h.name)
  }

  /** The subject header value decoded, or the raw value when decoding fails. */
  function DecodedOrRaw(value: string, decode: string -> Option<string>): string {
    match decode(value)
    case Some(text) => text
    case None => value
  }

  /** `_get_subject`: the first header named "subject" in any capitalisation, decoded or
      falling back to its raw value; the empty string when there is none. */
  function SubjectOf(headers: seq<Header>, decode: string -> Option<string>): (r: string)
    ensures (forall i | 0 <= i < |headers| :: !IsSubjectHeader(headers[i])) ==> r == ""
    ensures forall k | 0 <= k < |headers| && IsSubjectHeader(headers[k]) &&
      (forall j | 0 <= j < k :: !IsSubjectHeader(headers[j])) :: r == DecodedOrRaw(headers[k].value, decode)
  {
    var k := FirstIndex(headers, IsSubjectHeader);
    if k < |headers| then DecodedOrRaw(headers[k].value, decode) else ""
  }

  /** `_check_message_duplicate(message1, message2)`; `distance` is the Hamming distance
      of the simhash fingerprints of two texts. */
  function IsDuplicate(m1: Option<Message>, m2: Option<Message>, distance: (string, string) -> nat): (r: bool)
    ensures r ==> m1.Some? && m2.Some?
    ensures m1.Some? && m2.Some? && m1.value.raw == m2.value.raw ==> r
    ensures r && m1.value.raw != m2.value.raw ==> m1.value.body.SinglePart? == m2.value.body.SinglePart?
    ensures r && m1.value.raw != m2.value.raw && m1.value.body.MultiPart? ==>
      && m1.value.body.partCount == m2.value.body.partCount
      && m1.value.body.firstPart.Some? && m2.value.body.firstPart.Some?
      && distance(m1.value.body.firstPart.value, m2.value.body.firstPart.value) < SIMHASH_DISTANCE
    ensures m1.Some? && m2.Some? && m1.value.raw != m2.value.raw && m1.value.body.MultiPart? && m2.value.body.MultiPart? ==>
      (r <==> && m1.value.body.partCount == m2.value.body.partCount
              && m1.value.body.firstPart.Some? && m2.value.body.firstPart.Some?
              && distance(m1.value.body.firstPart.value, m2.value.body.firstPart.value) < SIMHASH_DISTANCE)
    ensures m1.Some? && m2.Some? && m1.value.body.SinglePart? && m2.value.body.SinglePart? ==>
      (r <==> m1.value.raw == m2.value.raw || m1.value.body.payload == m2.value.body.payload)
  {
    if m1.None? || m2.None? then false
    else if m1.value.raw == m2.value.raw then true
    else
      match (m1.value.body, m2.value.body)
      case (SinglePart(p1), SinglePart(p2)) => p1 == p2
      case (MultiPart(n1, f1), MultiPart(n2, f2)) =>
        if n1 != n2 then false
        else if f1.None? || f2.None? then false
        else distance(f1.value, f2.value) < SIMHASH_DISTANCE
      case _ => false
  }

  /** A message always matches itself. */
  lemma SelfIsDuplicate(m: Message, distance: (string, string) -> nat)
    ensures IsDuplicate(Some(m), Some(m), distance)
  {
  }

  /** With a symmetric fingerprint distance the comparison is symmetric. */
  lemma DuplicateSymmetric(m1: Option<Message>, m2: Option<Message>, distance: (string, string) -> nat)
    requires forall a, b :: distance(a, b) == distance(b, a)
    ensures IsDuplicate(m1, m2, distance) == IsDuplicate(m2, m1, distance)
  {
  }

  /** Multipart messages with different part counts never match unless their raw
      content is identical. */
  lemma PartCountsDiffer(m1: Message, m2: Message, distance: (string, string) -> nat)
    requires m1.raw != m2.raw
    requires m1.body.MultiPart? && m2.body.MultiPart? && m1.body.partCount != m2.body.partCount
    ensures !IsDuplicate(Some(m1), Some(m2), distance)
  {
  }
}
