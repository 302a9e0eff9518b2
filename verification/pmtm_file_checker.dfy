/** `PMTMFileChecker`: decides whether a file is a PMTM timing file from its first line. */
module PmtmFileChecker {
  import opened Wrappers
  import JavaText
  import PmtmFactory

  /** `checkHeader` over the file's lines: a file with no first line is an `IOException`;
      otherwise the answer is whether that line is exactly the PMTM header. */
  function CheckHeader(lines: seq<string>): (r: Result<bool>)
    ensures r.Failure? <==> lines == []
    ensures r.Success? ==> (r.value <==> lines[0] == PmtmFactory.Header)
  {
    if lines == [] then Failure("IOException: Empty file")
    else Success(lines[0] == PmtmFactory.Header)
  }

  /** Only the first line is examined: files that share it get the same answer. */
  lemma {:induction false} OnlyFirstLine(a: seq<string>, b: seq<string>)
    requires a != [] && b != [] && a[0] == b[0]
    ensures CheckHeader(a) == CheckHeader(b)
  {
  }

  /** A line that differs from the header in any way, even by surrounding spaces, is
      refused, although the loader itself trims the first line before comparing. */
  lemma {:induction false} PaddedHeaderRefused(rest: seq<string>)
    ensures CheckHeader([" " + PmtmFactory.Header] + rest) == Success(false)
    ensures JavaText.Trim(" " + PmtmFactory.Header) == PmtmFactory.Header
  {
    var h := PmtmFactory.Header;
    var p := " " + h;
    assert |p| != |h|;
    JavaText.TrimOfUntrimmable(h);
    JavaText.TrimLeadingSpace(' ', h);
  }

  /** An accepted file passes the loader's own header test. */
  lemma {:induction false} AcceptedPassesLoader(lines: seq<string>)
    requires CheckHeader(lines) == Success(true)
    ensures JavaText.Trim(lines[0]) == PmtmFactory.Header
  {
    JavaText.TrimOfUntrimmable(PmtmFactory.Header);
  }
}
