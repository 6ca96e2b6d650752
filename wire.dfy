/** The header values the upload manager puts on the wire and reads back:
    the `Content-Range` of a chunk and of a status probe (section 14.4 of
    RFC 9110), the resume cursor read from a probe's `Range` reply, and the
    status classes it distinguishes. */
module Wire {
  import opened Wrappers
  import opened Kotlin

  /** Google Cloud Storage's "Resume Incomplete": keep sending. */
  const ResumeIncomplete: int := 308

  /** `Response.isSuccessful`: a status in the 2xx class (section 15.3 of RFC 9110). */
  predicate IsSuccessful(code: int) { 200 <= code < 300 }

  /** 308 is not a success, so a chunk's three outcomes (continue, done,
      retry) never overlap; 200 and 299 are the ends of the success class. */
  lemma ResponseClasses()
    ensures !IsSuccessful(ResumeIncomplete)
    ensures IsSuccessful(200) && IsSuccessful(299)
    ensures !IsSuccessful(199) && !IsSuccessful(300)
  {
  }

  /** `Content-Range` of a chunk PUT: "bytes start-(end-1)/total". */
  function ChunkContentRange(start: int, end: int, total: int): string
  {
    "bytes " + LongToString(start) + "-" + LongToString(end - 1) + "/" + LongToString(total)
  }

  /** For a window of whole bytes the chunk header reads back as first =
      start, last = end - 1 and complete length = total. */
  lemma ChunkContentRangeRoundTrip(start: int, end: int, total: int)
    requires 0 <= start && 1 <= end && 0 <= total
    ensures ParseContentRange(ChunkContentRange(start, end, total)) == Some(Satisfied(start, end - 1, total))
  {
    LongToStringDigits(start);
    LongToStringDigits(end - 1);
    LongToStringDigits(total);
    ParseSatisfied(LongToString(start), LongToString(end - 1), LongToString(total));
  }

  /** The `Content-Range` of a status probe: "bytes ", an asterisk, a slash
      and the total. */
  function ProbeContentRange(total: int): string
  {
    "bytes */" + LongToString(total)
  }

  /** The probe header reads back as the unsatisfied range of the total. */
  lemma ProbeContentRangeRoundTrip(total: int)
    requires 0 <= total
    ensures ParseContentRange(ProbeContentRange(total)) == Some(Unsatisfied(total))
  {
    LongToStringDigits(total);
    ParseUnsatisfied(LongToString(total));
  }

  // ---------------------------------------------------------------- reading Content-Range back

  /** A Content-Range value in the byte unit: an `incl-range` with its
      complete length, or an `unsatisfied-range` (an asterisk, then a slash
      and the complete length). */
  datatype ContentRangeField =
    | Satisfied(first: nat, last: nat, complete: nat)
    | Unsatisfied(complete: nat)
  {
    /** Section 14.4 of RFC 9110 calls an incl-range valid only when
        first <= last < complete. */
    predicate Valid() { Satisfied? ==> first <= last < complete }
  }

  /** The longest prefix of decimal digits, and what follows it. */
  function TakeDigits(s: string): (r: (string, string))
    ensures r.0 + r.1 == s && IsDigits(r.0)
    ensures r.1 == [] || !IsDigit(r.1[0])
  {
    if s == [] || !IsDigit(s[0]) then ([], s)
    else
      var (d, rest) := TakeDigits(s[1..]);
      ([s[0]] + d, rest)
  }

  lemma {:induction false} TakeDigitsOf(d: string, t: string)
    requires IsDigits(d) && (t == [] || !IsDigit(t[0]))
    ensures TakeDigits(d + t) == (d, t)
  {
    if d != [] {
      assert (d + t)[0] == d[0] && (d + t)[1..] == d[1..] + t;
      TakeDigitsOf(d[1..], t);
      assert [d[0]] + d[1..] == d;
    } else {
      assert d + t == t;
    }
  }

  /** Reads "bytes first-last/complete", or "bytes " followed by an
      unsatisfied range; anything else, including a negative number, is `None`. */
  function ParseContentRange(s: string): (r: Option<ContentRangeField>)
  {
    if |s| < 6 || s[..6] != "bytes " then None
    else
      var t := s[6..];
      if |t| >= 2 && t[..2] == "*/" then
        match ParseNumberToEnd(t[2..])
        case Some(c) => Some(Unsatisfied(c))
        case None => None
      else ParseInclRange(t)
  }

  /** A non-empty digit string that runs to the end. */
  function ParseNumberToEnd(t: string): Option<nat>
  {
    var (c, rest) := TakeDigits(t);
    if c != [] && rest == [] then Some(DigitsValue(c)) else None
  }

  /** first "-" last "/" complete. */
  function ParseInclRange(t: string): Option<ContentRangeField>
  {
    var (a, r1) := TakeDigits(t);
    if a == [] || r1 == [] || r1[0] != '-' then None
    else ParseLastAndComplete(DigitsValue(a), r1[1..])
  }

  /** last "/" complete, after first "-". */
  function ParseLastAndComplete(first: nat, u: string): Option<ContentRangeField>
  {
    var (b, r2) := TakeDigits(u);
    if b == [] || r2 == [] || r2[0] != '/' then None
    else
      match ParseNumberToEnd(r2[1..])
      case Some(c) => Some(Satisfied(first, DigitsValue(b), c))
      case None => None
  }

  lemma ParseNumberToEndOf(C: string)
    requires C != [] && IsDigits(C)
    ensures ParseNumberToEnd(C) == Some(DigitsValue(C))
  {
    TakeDigitsOf(C, []);
    assert C + [] == C;
  }

  /** "bytes A-B/C" with digit strings A, B and C reads back as their values. */
  lemma ParseSatisfied(A: string, B: string, C: string)
    requires A != [] && B != [] && C != [] && IsDigits(A) && IsDigits(B) && IsDigits(C)
    ensures ParseContentRange("bytes " + A + "-" + B + "/" + C)
         == Some(Satisfied(DigitsValue(A), DigitsValue(B), DigitsValue(C)))
  {
    var r2 := "/" + C;
    var r1 := "-" + (B + r2);
    var t := A + r1;
    var s := "bytes " + t;
    assert s == "bytes " + A + "-" + B + "/" + C;
    assert s[..6] == "bytes " && s[6..] == t;
    assert t[0] == A[0];
    assert !(|t| >= 2 && t[..2] == "*/");
    TakeDigitsOf(A, r1);
    assert r1[1..] == B + r2;
    TakeDigitsOf(B, r2);
    assert r2[1..] == C;
    ParseNumberToEndOf(C);
    assert ParseLastAndComplete(DigitsValue(A), B + r2) == Some(Satisfied(DigitsValue(A), DigitsValue(B), DigitsValue(C)));
    assert ParseInclRange(t) == Some(Satisfied(DigitsValue(A), DigitsValue(B), DigitsValue(C)));
  }

  /** The probe form, "bytes " and an unsatisfied range over a digit string
      C, reads back as C's value. */
  lemma ParseUnsatisfied(C: string)
    requires C != [] && IsDigits(C)
    ensures ParseContentRange("bytes */" + C) == Some(Unsatisfied(DigitsValue(C)))
  {
    var s := "bytes */" + C;
    assert s[..6] == "bytes " && s[6..] == "*/" + C;
    assert s[6..][..2] == "*/" && s[6..][2..] == C;
    ParseNumberToEndOf(C);
  }

  /** The header of a non-empty window inside the file is a valid incl-range. */
  lemma ChunkContentRangeValid(start: nat, end: nat, total: nat)
    requires start < end <= total
    ensures ParseContentRange(ChunkContentRange(start, end, total)).Some?
    ensures ParseContentRange(ChunkContentRange(start, end, total)).value.Valid()
  {
    ChunkContentRangeRoundTrip(start, end, total);
  }

  /** An empty window [e, e) with e >= 1 gets the header "bytes e-(e-1)/total":
      it parses, but its last byte precedes its first, so it is not a valid
      incl-range. */
  lemma EmptyWindowContentRange(e: int, total: int)
    requires 1 <= e && 0 <= total
    ensures ParseContentRange(ChunkContentRange(e, e, total)) == Some(Satisfied(e, e - 1, total))
    ensures !ParseContentRange(ChunkContentRange(e, e, total)).value.Valid()
  {
    ChunkContentRangeRoundTrip(e, e, total);
  }

  /** The empty window of an empty file gets the header "bytes 0--1/0",
      which is not a Content-Range at all. */
  lemma EmptyFileContentRange()
    ensures ChunkContentRange(0, 0, 0) == "bytes 0--1/0"
    ensures ParseContentRange(ChunkContentRange(0, 0, 0)).None?
  {
    assert LongToString(0) == "0";
    assert LongToString(-1) == "-" + NatToString(1) == "-1";
    var s := ChunkContentRange(0, 0, 0);
    assert s == "bytes 0--1/0";
    assert ParseLastAndComplete(0, "-1/0").None? by {
      TakeDigitsOf("", "-1/0");
      assert "" + "-1/0" == "-1/0";
    }
    assert ParseInclRange("0--1/0") == ParseLastAndComplete(0, "-1/0") by {
      TakeDigitsOf("0", "--1/0");
      assert "0" + "--1/0" == "0--1/0";
      assert DigitsValue("0") == 0;
    }
    assert s[..6] == "bytes " && s[6..] == "0--1/0";
  }

  // ---------------------------------------------------------------- reading the probe's Range reply

  /** What a probe reply's header starts with when the server holds bytes 0 .. N. */
  const RangePrefix: string := "bytes=0-"

  /** The resume cursor taken from a 308 probe reply's `Range` header:
      `substringAfter("bytes=0-")`, `toLongOrNull()`, then `plus(1)` in `Long`
      arithmetic; a missing header or an unreadable number gives 0. */
  function ResumeCursor(range: Option<string>): (cursor: int)
    ensures IsLong(cursor)
    ensures range.None? ==> cursor == 0
  {
    match range
    case None => 0
    case Some(h) =>
      match ToLongOrNull(SubstringAfter(h, RangePrefix))
      case None => 0
      case Some(n) => WrapLong(n + 1)
  }

  /** "bytes=0-N" resumes at N + 1, the first byte the server does not hold,
      computed in `Long` arithmetic. */
  lemma ResumeCursorOfRange(n: nat)
    requires n <= LongMax
    ensures ResumeCursor(Some(RangePrefix + NatToString(n))) == WrapLong(n + 1)
    ensures n < LongMax ==> ResumeCursor(Some(RangePrefix + NatToString(n))) == n + 1
  {
    SubstringAfterPrefix(RangePrefix, NatToString(n));
    LongToStringRoundTrip(n);
  }

  /** A header naming the largest `Long` wraps the cursor to the smallest one. */
  lemma ResumeCursorOverflow(n: nat)
    requires n == LongMax
    ensures ResumeCursor(Some(RangePrefix + NatToString(n))) == LongMin
  {
    assert WrapLong(LongMax + 1) == LongMin;
    ResumeCursorOfRange(n);
  }

  /** A header that is not a number after the prefix resumes from 0. */
  lemma ResumeCursorUnreadable()
    ensures ResumeCursor(Some("bytes=0-")) == 0
    ensures ResumeCursor(Some("bytes=0-x")) == 0
  {
    SubstringAfterPrefix(RangePrefix, "");
    SubstringAfterPrefix(RangePrefix, "x");
  }
}
