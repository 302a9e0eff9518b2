/** `HPCCFileChecker`: decides whether a file is an HPC Challenge output file from its first
    two lines. */
module HpccFileChecker {
  import opened Wrappers
  import JavaText

  /** The 72-character divider the file opens with. */
  const Divider: string := Hashes(72)

  /** `n` hash characters. */
  function Hashes(n: nat): (r: string)
    ensures |r| == n && forall i :: 0 <= i < n ==> r[i] == '#'
  {
    if n == 0 then [] else "#" + Hashes(n - 1)
  }

  /** The banner the second line starts with. */
  const Banner: string := "This is the DARPA/DOE HPC Challenge Benchmark version"

  /** `Scanner.hasNext`: some character of the file is not white space. */
  predicate HasToken(lines: seq<string>) {
    exists i, j :: 0 <= i < |lines| && 0 <= j < |lines[i]| && !JavaText.IsRegexSpace(lines[i][j])
  }

  /** `checkHeader` over the file's lines. A file without a token is an `IOException`; a
      divider with no line after it makes `nextLine` throw `NoSuchElementException`. */
  function CheckHeader(lines: seq<string>): (r: Result<bool>)
    ensures !HasToken(lines) ==> r.Failure?
    ensures HasToken(lines) && lines[0] != Divider ==> r == Success(false)
    ensures HasToken(lines) && lines[0] == Divider ==>
              (r.Failure? <==> |lines| == 1)
              && (r.Success? ==> (r.value <==> JavaText.StartsWith(lines[1], Banner)))
  {
    if !HasToken(lines) then Failure("IOException: Empty file.")
    else if lines[0] != Divider then Success(false)
    else if |lines| == 1 then Failure("NoSuchElementException: No line found")
    else Success(JavaText.StartsWith(lines[1], Banner))
  }

  /** The answer is true exactly for a divider followed by a line that starts with the
      banner. */
  lemma {:induction false} AcceptedIff(lines: seq<string>)
    ensures CheckHeader(lines) == Success(true) <==>
              |lines| >= 2 && lines[0] == Divider && JavaText.StartsWith(lines[1], Banner)
  {
    if |lines| >= 2 && lines[0] == Divider {
      assert Divider[0] == '#';
      assert !JavaText.IsRegexSpace(lines[0][0]);
    }
  }

  /** At most the first two lines are examined, once they hold a token: whether the file
      has one at all is decided by the scanner from the whole file. */
  lemma {:induction false} OnlyTwoLines(a: seq<string>, b: seq<string>)
    requires |a| >= 2 && |b| >= 2 && a[..2] == b[..2]
    requires HasToken(a[..2])
    ensures CheckHeader(a) == CheckHeader(b)
  {
    assert a[0] == a[..2][0] == b[..2][0] == b[0];
    assert a[1] == a[..2][1] == b[..2][1] == b[1];
    var i, j :| 0 <= i < 2 && 0 <= j < |a[..2][i]| && !JavaText.IsRegexSpace(a[..2][i][j]);
    assert a[i] == a[..2][i] == b[i];
  }

  /** A file of blank lines has no token and is refused, whatever its length. */
  lemma BlankFileRefused(n: nat)
    ensures CheckHeader(seq(n, _ => "  ")).Failure?
  {
    var lines := seq(n, _ => "  ");
    assert forall i, j :: 0 <= i < |lines| && 0 <= j < |lines[i]| ==> lines[i][j] == ' ';
  }
}
