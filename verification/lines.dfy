/** Files as sequences of lines, the way a loop over `fgets` reads them:
    each line keeps its "\n" terminator, only the last may lack one, and
    concatenating the lines gives the file back. */
module Lines {
  import opened Text

  /** One past the first "\n" of `s`, or `|s|` when there is none. */
  function LineEnd(s: string): (k: nat)
    requires s != ""
    ensures 0 < k <= |s|
    ensures '\n' !in s[..k - 1]
    ensures k < |s| ==> s[k - 1] == '\n'
    decreases |s|
  {
    if s[0] == '\n' || |s| == 1 then 1
    else
      var k := LineEnd(s[1..]);
      assert s[1..][..k - 1] == s[1..k];
      assert s[..k] == [s[0]] + s[1..k];
      k + 1
  }

  /** What successive `fgets` calls return for a file holding `s`. */
  function SplitLines(s: string): seq<string>
    decreases |s|
  {
    if s == "" then [] else var k := LineEnd(s); [s[..k]] + SplitLines(s[k..])
  }

  /** A line as `fgets` returns it: non-empty, and a "\n" only as its last character. */
  predicate IsLine(line: string) {
    line != "" && '\n' !in line[..|line| - 1]
  }

  predicate Terminated(line: string) {
    line != "" && line[|line| - 1] == '\n'
  }

  /** A sequence of lines that `fgets` could have produced. */
  predicate WellFormed(lines: seq<string>) {
    && (forall i :: 0 <= i < |lines| ==> IsLine(lines[i]))
    && (forall i :: 0 <= i < |lines| - 1 ==> Terminated(lines[i]))
  }

  /** The lines `fgets` returns are a well-formed split of the file. */
  lemma {:induction false} SplitLinesSound(s: string)
    ensures Concat(SplitLines(s)) == s
    ensures WellFormed(SplitLines(s))
    decreases |s|
  {
    if s != "" {
      var k := LineEnd(s);
      SplitLinesSound(s[k..]);
      var rest := SplitLines(s[k..]);
      assert SplitLines(s) == [s[..k]] + rest;
      assert s == s[..k] + s[k..];
      assert IsLine(s[..k]) by { assert s[..k][..k - 1] == s[..k - 1]; }
      if rest != [] {
        assert k < |s|;
        assert Terminated(s[..k]);
      }
    }
  }

  /** Reading back the concatenation of well-formed lines yields those lines. */
  lemma {:induction false} SplitConcat(lines: seq<string>)
    requires WellFormed(lines)
    ensures SplitLines(Concat(lines)) == lines
    decreases |lines|
  {
    if lines != [] {
      var s := Concat(lines);
      var first := lines[0];
      assert s == first + Concat(lines[1..]);
      assert WellFormed(lines[1..]) by {
        forall i | 0 <= i < |lines[1..]| ensures IsLine(lines[1..][i]) {
          assert lines[1..][i] == lines[i + 1];
        }
      }
      SplitConcat(lines[1..]);
      var k := LineEnd(s);
      LineEndOfPrefix(first, Concat(lines[1..]), |lines| == 1);
      assert s[..k] == first && s[k..] == Concat(lines[1..]);
    }
  }

  lemma LineEndOfPrefix(first: string, rest: string, last: bool)
    requires IsLine(first)
    requires !last ==> Terminated(first)
    requires last ==> rest == ""
    ensures LineEnd(first + rest) == |first|
  {
    var s := first + rest;
    var k := LineEnd(s);
    assert s[..|first|] == first;
  }

  /** A file cut after a line break reads as the lines of each half. */
  lemma {:induction false} SplitLinesAppend(a: string, b: string)
    requires a == "" || a[|a| - 1] == '\n'
    ensures SplitLines(a + b) == SplitLines(a) + SplitLines(b)
    decreases |a|
  {
    if a == "" {
      assert a + b == b;
    } else {
      var k := LineEnd(a);
      var s := a + b;
      assert s[..|a|] == a;
      var j := LineEnd(s);
      assert j == k;
      assert s[..k] == a[..k];
      assert s[k..] == a[k..] + b;
      if k < |a| {
        assert a[k..][|a[k..]| - 1] == '\n';
      }
      SplitLinesAppend(a[k..], b);
    }
  }
}
