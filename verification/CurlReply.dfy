/** How `run_curl` frames a reply: the body, a line break, and the HTTP status that curl appends. */
module CurlReply {
  import opened Text

  predicate IsDigit(c: char) {
    '0' <= c <= '9'
  }

  predicate AllDigits(s: string) {
    s != "" && forall i :: 0 <= i < |s| ==> IsDigit(s[i])
  }

  function DigitValue(c: char): nat
    requires IsDigit(c)
  {
    c as int - '0' as int
  }

  function DigitsValue(s: string): nat
    requires forall i :: 0 <= i < |s| ==> IsDigit(s[i])
  {
    if s == "" then 0 else 10 * DigitsValue(s[..|s| - 1]) + DigitValue(s[|s| - 1])
  }

  /** The index of the last line feed, or -1. */
  function LastBreak(s: string): (i: int)
    ensures -1 <= i < |s| && (i >= 0 ==> s[i] == '\n')
    ensures forall k :: i < k < |s| ==> s[k] != '\n'
  {
    if s == "" then -1
    else if s[|s| - 1] == '\n' then |s| - 1
    else LastBreak(s[..|s| - 1])
  }

  datatype Reply = Body(text: string) | HttpError(status: nat) | CurlFailed

  /** The framing part of `run_curl`: `stdout.rpartition("\n")`, then the status or a fallback to 200. */
  function Frame(stdout: string, returnCode: int): Reply {
    if returnCode != 0 then CurlFailed
    else
      var i := LastBreak(stdout);
      var head := if i < 0 then "" else stdout[..i];
      var code := Trim(stdout[i + 1..]);
      if code != "" && !AllDigits(code) then Body(stdout)
      else
        var status := DigitsValue(code);
        if status >= 400 then HttpError(status)
        else Body(if head == "" then "{}" else head)
  }

  function Digit(n: nat): char
    requires n < 10
  {
    '0' + n as char
  }

  /** `%{http_code}`: always three digits. */
  function StatusText(status: nat): (s: string)
    requires status < 1000
    ensures |s| == 3 && AllDigits(s)
  {
    [Digit(status / 100), Digit(status / 10 % 10), Digit(status % 10)]
  }

  lemma StatusRoundTrip(status: nat)
    requires status < 1000
    ensures DigitsValue(StatusText(status)) == status
  {
    var s := StatusText(status);
    assert s[..2] == [s[0], s[1]] && s[..2][..1] == [s[0]] && s[..1][..0] == "";
    assert DigitsValue([s[0]]) == status / 100;
    assert DigitsValue(s[..2]) == 10 * (status / 100) + status / 10 % 10;
  }

  lemma LastBreakOf(body: string, tail: string)
    requires forall i :: 0 <= i < |tail| ==> tail[i] != '\n'
    ensures LastBreak(body + "\n" + tail) == |body|
  {
    AfterBreak(body, tail);
    LastBreakIs(body + "\n" + tail, |body|);
  }

  lemma AfterBreak(body: string, tail: string)
    ensures (body + "\n" + tail)[|body|] == '\n'
    ensures forall k :: |body| < k < |body| + 1 + |tail| ==> (body + "\n" + tail)[k] == tail[k - |body| - 1]
  {
  }

  lemma LastBreakIs(s: string, k: nat)
    requires k < |s| && s[k] == '\n' && forall i :: k < i < |s| ==> s[i] != '\n'
    ensures LastBreak(s) == k
  {
  }

  lemma {:induction false} TrimOfDigits(s: string)
    requires AllDigits(s)
    ensures Trim(s) == s
  {
    assert IsDigit(s[0]) && IsDigit(s[|s| - 1]);
  }

  /** Round trip: for every body, line breaks included, and every status, the framing recovers both. */
  lemma FrameRecovers(body: string, status: nat)
    requires status < 1000
    ensures Frame(body + "\n" + StatusText(status), 0)
         == if status >= 400 then HttpError(status) else Body(if body == "" then "{}" else body)
  {
    var tail := StatusText(status);
    var s := body + "\n" + tail;
    assert forall i :: 0 <= i < |tail| ==> IsDigit(tail[i]);
    LastBreakOf(body, tail);
    assert s[|body| + 1..] == tail && s[..|body|] == body;
    TrimOfDigits(tail);
    StatusRoundTrip(status);
  }

  /** A curl that fails is an error, whatever it has put out. */
  lemma FailedCurlIsError(stdout: string, returnCode: int)
    ensures Frame(stdout, returnCode) == CurlFailed <==> returnCode != 0
  {
  }

  /** The reply for a body and a status. */
  function ReplyFor(body: string, status: nat): Reply {
    if status >= 400 then HttpError(status) else Body(if body == "" then "{}" else body)
  }

  predicate OneLine(s: string) {
    forall i :: 0 <= i < |s| ==> s[i] != '\n'
  }

  lemma NoBreak(line: string)
    requires OneLine(line)
    ensures LastBreak(line) == -1
  {
  }

  /** A numeric or empty last line is the status, with a body before it or without. */
  lemma FramedByLastLine(body: string, line: string, code: string)
    requires OneLine(line) && Trim(line) == code && (code == "" || AllDigits(code))
    ensures Frame(body + "\n" + line, 0) == ReplyFor(body, DigitsValue(code))
    ensures Frame(line, 0) == ReplyFor("", DigitsValue(code))
  {
    hide Trim, DigitsValue, LastBreak;
    LastBreakOf(body, line);
    assert (body + "\n" + line)[|body| + 1..] == line && (body + "\n" + line)[..|body|] == body;
    NoBreak(line);
    assert line[-1 + 1..] == line;
  }

  /** A last line without a status, or none at all, counts as a success with the text before it. */
  lemma BlankStatusIsBody(body: string, line: string)
    requires OneLine(line) && Trim(line) == ""
    ensures Frame(body + "\n" + line, 0) == Body(if body == "" then "{}" else body)
    ensures Frame(line, 0) == Body("{}")
  {
    hide Frame, Trim;
    FramedByLastLine(body, line, "");
  }

  /** White space around the status does not matter, nor does a body that is missing with its line break. */
  lemma PaddedStatus(body: string, lead: string, status: nat, tail: string)
    requires status < 1000 && Only(lead, IsSpace) && Only(tail, IsSpace) && OneLine(lead) && OneLine(tail)
    ensures var line := lead + StatusText(status) + tail;
      Frame(body + "\n" + line, 0) == ReplyFor(body, status) && Frame(line, 0) == ReplyFor("", status)
  {
    hide Frame, Strip, StatusText, DigitsValue, ReplyFor, IsSpace;
    var line := lead + StatusText(status) + tail;
    StatusIsCore(status);
    StripOf(lead, StatusText(status), tail, IsSpace);
    StatusRoundTrip(status);
    assert OneLine(line);
    FramedByLastLine(body, line, StatusText(status));
  }

  lemma StatusIsCore(status: nat)
    requires status < 1000
    ensures IsCore(StatusText(status), IsSpace)
    ensures OneLine(StatusText(status))
  {
    var s := StatusText(status);
    assert IsDigit(s[0]) && IsDigit(s[1]) && IsDigit(s[2]);
  }

  /** Output whose last line is no number is all body, and taken as a success. */
  lemma UnframedIsBody(body: string, tail: string)
    requires (forall i :: 0 <= i < |tail| ==> tail[i] != '\n') && Trim(tail) != "" && !AllDigits(Trim(tail))
    ensures Frame(body + "\n" + tail, 0) == Body(body + "\n" + tail)
  {
    LastBreakOf(body, tail);
    assert (body + "\n" + tail)[|body| + 1..] == tail;
  }
}
