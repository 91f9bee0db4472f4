/** Finding the generator token in the app's services file and splicing new
    definitions in front of it (`BaseMaker::validateServiceFile` and the
    first loop of `BaseMaker::writeServiceFile`). */
module ServiceToken {
  import opened Text
  import opened Lines
  import opened Results

  datatype Error =
    | TokenNotSet              // neither the given token nor SERVICE_TOKEN is set
    | ServicesFileMissing      // services.php does not exist or cannot be opened
    | TokenNotFound(token: string)

  /** Where the token line is: its index among the lines, the width of its
      leading whitespace, and its byte offset in the file (what `ftell`
      reported before the line was read). */
  datatype Anchor = Anchor(index: nat, indent: nat, location: nat)

  /** The characters `\s` matches in a PCRE pattern without the `u` flag. */
  predicate IsPatternSpace(c: char) {
    c == ' ' || c == '\t' || c == '\n' || c == '\U{000B}' || c == '\U{000C}' || c == '\r'
  }

  /** Characters that are special in the search pattern, or its `#` delimiter;
      a token holding one would not be matched literally. */
  predicate IsLiteralToken(token: string) {
    forall i :: 0 <= i < |token| ==> token[i] !in "\\^$.[|()?*+{#"
  }

  /** The length of the longest run of pattern whitespace starting the line. */
  function Indent(line: string): (n: nat)
    ensures n <= |line|
    ensures forall i :: 0 <= i < n ==> IsPatternSpace(line[i])
    ensures n == |line| || !IsPatternSpace(line[n])
  {
    if line != "" && IsPatternSpace(line[0]) then 1 + Indent(line[1..]) else 0
  }

  function TokenComment(token: string): string {
    "// GENERATOR[" + token + "]"
  }

  /** The line matches `^(\s*)// GENERATOR\[<token>]`. */
  predicate MarksToken(line: string, token: string) {
    StartsWith(line[Indent(line)..], TokenComment(token))
  }

  /** The pattern read literally: `k` whitespace characters, then the comment. */
  ghost predicate MatchesAfter(line: string, token: string, k: int) {
    && 0 <= k <= |line|
    && (forall i :: 0 <= i < k ==> IsPatternSpace(line[i]))
    && StartsWith(line[k..], TokenComment(token))
  }

  /** The line marks the token exactly when the pattern matches it, and the
      only whitespace prefix the pattern can capture is the whole leading run,
      so the recorded indent is well defined. */
  lemma MarksTokenIsPatternMatch(line: string, token: string)
    ensures MarksToken(line, token) <==> exists k :: MatchesAfter(line, token, k)
    ensures forall k :: MatchesAfter(line, token, k) ==> k == Indent(line)
  {
    forall k | MatchesAfter(line, token, k)
      ensures k == Indent(line)
    {
      var n := Indent(line);
      assert line[k..][0] == '/';
    }
    if MarksToken(line, token) {
      assert MatchesAfter(line, token, Indent(line));
    }
  }

  /** `empty($sToken)` falls back to SERVICE_TOKEN; both empty is an error. */
  function ResolveToken(given: string, fallback: string): (r: Result<string, Error>)
    ensures r.Err? <==> Falsy(given) && Falsy(fallback)
    ensures r.Err? ==> r.error == TokenNotSet
    ensures r.Ok? ==> !Falsy(r.value)
    ensures r.Ok? && !Falsy(given) ==> r.value == given
    ensures r.Ok? && Falsy(given) ==> r.value == fallback
  {
    if Falsy(given) && Falsy(fallback) then Err(TokenNotSet)
    else if Falsy(given) then Ok(fallback)
    else Ok(given)
  }

  /** `a` is the first line of `lines` that marks the token, with its indent
      and the summed length of every line before it. */
  ghost predicate IsFirstMark(lines: seq<string>, token: string, a: Anchor) {
    && a.index < |lines|
    && MarksToken(lines[a.index], token)
    && (forall j :: 0 <= j < a.index ==> !MarksToken(lines[j], token))
    && a.indent == Indent(lines[a.index])
    && a.location == |Concat(lines[..a.index])|
  }

  lemma ConcatStep(lines: seq<string>, i: nat)
    requires i < |lines|
    ensures Concat(lines[..i + 1]) == Concat(lines[..i]) + lines[i]
  {
    assert lines[..i + 1] == lines[..i] + [lines[i]];
    ConcatAppend(lines[..i], [lines[i]]);
  }

  /** The `fgets`/`ftell` loop, from line `i` whose offset is `offset`. */
  function Scan(lines: seq<string>, token: string, i: nat, offset: nat): (r: Option<Anchor>)
    requires i <= |lines|
    requires offset == |Concat(lines[..i])|
    ensures r.Some? ==> i <= r.value.index && IsFirstMarkFrom(lines, token, i, r.value)
    ensures r.None? ==> forall j :: i <= j < |lines| ==> !MarksToken(lines[j], token)
    decreases |lines| - i
  {
    if i == |lines| then None
    else if MarksToken(lines[i], token) then Some(Anchor(i, Indent(lines[i]), offset))
    else
      ConcatStep(lines, i);
      Scan(lines, token, i + 1, offset + |lines[i]|)
  }

  ghost predicate IsFirstMarkFrom(lines: seq<string>, token: string, from: nat, a: Anchor) {
    && a.index < |lines|
    && MarksToken(lines[a.index], token)
    && (forall j :: from <= j < a.index ==> !MarksToken(lines[j], token))
    && a.indent == Indent(lines[a.index])
    && a.location == |Concat(lines[..a.index])|
  }

  /** `validateServiceFile`: resolve the token, open the file (absent when
      `file` is None), and find the first line carrying the token. */
  function Locate(given: string, fallback: string, file: Option<string>): (r: Result<Anchor, Error>)
    requires ResolveToken(given, fallback).Ok? ==> IsLiteralToken(ResolveToken(given, fallback).value)
    ensures r == Err(TokenNotSet) <==> Falsy(given) && Falsy(fallback)
    ensures !(Falsy(given) && Falsy(fallback)) && file.None? ==> r == Err(ServicesFileMissing)
    ensures r.Ok? ==> file.Some? && IsFirstMark(SplitLines(file.value), ResolveToken(given, fallback).value, r.value)
    ensures r.Err? && r.error.TokenNotFound? ==>
              && file.Some?
              && r.error.token == ResolveToken(given, fallback).value
              && forall j :: 0 <= j < |SplitLines(file.value)| ==>
                   !MarksToken(SplitLines(file.value)[j], r.error.token)
    ensures file.Some? && ResolveToken(given, fallback).Ok? &&
            (exists j :: 0 <= j < |SplitLines(file.value)| &&
               MarksToken(SplitLines(file.value)[j], ResolveToken(given, fallback).value))
            ==> r.Ok?
    ensures file.Some? && ResolveToken(given, fallback).Ok? &&
            (forall j :: 0 <= j < |SplitLines(file.value)| ==>
               !MarksToken(SplitLines(file.value)[j], ResolveToken(given, fallback).value))
            ==> r == Err(TokenNotFound(ResolveToken(given, fallback).value))
  {
    match ResolveToken(given, fallback)
    case Err(e) => Err(e)
    case Ok(token) =>
      if file.None? then Err(ServicesFileMissing)
      else
        var lines := SplitLines(file.value);
        match Scan(lines, token, 0, 0)
        case None => Err(TokenNotFound(token))
        case Some(a) => Ok(a)
  }

  // ---------------------------------------------------------------------
  // Splicing the definitions in

  /** `implode(PHP_EOL, $aServiceDefinitions) . PHP_EOL`. */
  function DefinitionBlock(defs: seq<string>): (r: string)
    ensures r != "" && r[|r| - 1] == '\n'
    ensures defs == [] ==> r == "\n"
  {
    Join(defs, "\n") + "\n"
  }

  /** The copy loop: every line is written out, and the block goes in front
      of the line whose starting offset equals `location`. */
  function SpliceFrom(lines: seq<string>, location: nat, block: string, offset: nat): string
    decreases |lines|
  {
    if lines == [] then ""
    else
      (if offset == location then block else "") + lines[0]
      + SpliceFrom(lines[1..], location, block, offset + |lines[0]|)
  }

  /** The temporary file's contents after the first pass of `writeServiceFile`. */
  function Splice(text: string, a: Anchor, defs: seq<string>): string {
    SpliceFrom(SplitLines(text), a.location, DefinitionBlock(defs), 0)
  }

  lemma {:induction false} SpliceFromPast(lines: seq<string>, location: nat, block: string, offset: nat)
    requires forall j :: 0 <= j < |lines| ==> lines[j] != ""
    requires location < offset
    ensures SpliceFrom(lines, location, block, offset) == Concat(lines)
    decreases |lines|
  {
    if lines != [] {
      SpliceFromPast(lines[1..], location, block, offset + |lines[0]|);
    }
  }

  lemma {:induction false} SpliceFromAt(lines: seq<string>, i: nat, location: nat, block: string, offset: nat)
    requires forall j :: 0 <= j < |lines| ==> lines[j] != ""
    requires i < |lines|
    requires location == offset + |Concat(lines[..i])|
    ensures SpliceFrom(lines, location, block, offset) == Concat(lines[..i]) + block + Concat(lines[i..])
    decreases i
  {
    if i == 0 {
      SpliceFromPast(lines[1..], location, block, offset + |lines[0]|);
      assert lines[0..] == lines;
    } else {
      assert lines[..i] == [lines[0]] + lines[1..][..i - 1];
      assert lines[1..][i - 1..] == lines[i..];
      SpliceFromAt(lines[1..], i - 1, location, block, offset + |lines[0]|);
    }
  }

  /** The spliced file is the lines before the token line, the definition
      block, then the token line and everything after it, unchanged. */
  lemma {:induction false} SpliceInsertsBeforeToken(text: string, token: string, a: Anchor, defs: seq<string>)
    requires IsFirstMark(SplitLines(text), token, a)
    ensures Splice(text, a, defs)
            == Concat(SplitLines(text)[..a.index]) + DefinitionBlock(defs) + Concat(SplitLines(text)[a.index..])
  {
    SplitLinesSound(text);
    SpliceFromAt(SplitLines(text), a.index, a.location, DefinitionBlock(defs), 0);
  }

  /** Read back line by line, the spliced file is the old lines with the
      lines of the definition block in front of the token line. */
  lemma {:induction false} SpliceLines(text: string, token: string, a: Anchor, defs: seq<string>)
    requires IsFirstMark(SplitLines(text), token, a)
    ensures SplitLines(Splice(text, a, defs))
            == SplitLines(text)[..a.index] + SplitLines(DefinitionBlock(defs)) + SplitLines(text)[a.index..]
  {
    SpliceInsertsBeforeToken(text, token, a, defs);
    SplitLinesSound(text);
    SplitAround(SplitLines(text), a.index, DefinitionBlock(defs));
  }

  /** Text ending in a newline, put between two parts of well-formed lines,
      reads back as its own lines between those parts. */
  lemma {:induction false} SplitAround(lines: seq<string>, i: nat, block: string)
    requires WellFormed(lines) && i < |lines|
    requires block != "" && block[|block| - 1] == '\n'
    ensures SplitLines(Concat(lines[..i]) + block + Concat(lines[i..])) == lines[..i] + SplitLines(block) + lines[i..]
  {
    WellFormedSlices(lines, i);
    ConcatBeforeTerminated(lines, i);
    SplitBetween(lines[..i], block, lines[i..]);
  }

  lemma {:induction false} SplitBetween(before: seq<string>, block: string, after: seq<string>)
    requires WellFormed(before) && WellFormed(after)
    requires var p := Concat(before); p == "" || p[|p| - 1] == '\n'
    requires block != "" && block[|block| - 1] == '\n'
    ensures SplitLines(Concat(before) + block + Concat(after)) == before + SplitLines(block) + after
  {
    SplitConcat(before);
    SplitConcat(after);
    SplitThree(Concat(before), block, Concat(after));
  }

  /** Text cut after two line breaks reads as the lines of its three parts. */
  lemma {:induction false} SplitThree(p: string, block: string, q: string)
    requires p == "" || p[|p| - 1] == '\n'
    requires block != "" && block[|block| - 1] == '\n'
    ensures SplitLines(p + block + q) == SplitLines(p) + SplitLines(block) + SplitLines(q)
  {
    SplitLinesAppend(p, block);
    LastOfAppend(p, block);
    SplitLinesAppend(p + block, q);
  }

  lemma {:induction false} LastOfAppend(p: string, block: string)
    requires block != ""
    ensures (p + block)[|p + block| - 1] == block[|block| - 1]
  {
  }

  lemma {:induction false} WellFormedSlices(lines: seq<string>, i: nat)
    requires WellFormed(lines) && i <= |lines|
    ensures WellFormed(lines[..i]) && WellFormed(lines[i..])
  {
    assert forall j :: 0 <= j < i ==> lines[..i][j] == lines[j];
    assert forall j :: 0 <= j < |lines| - i ==> lines[i..][j] == lines[i + j];
  }

  /** The lines before a line that follows them all end in a newline, so their
      text does too. */
  lemma {:induction false} ConcatBeforeTerminated(lines: seq<string>, i: nat)
    requires WellFormed(lines) && i < |lines|
    ensures var p := Concat(lines[..i]); p == "" || p[|p| - 1] == '\n'
  {
    if i > 0 {
      assert Terminated(lines[i - 1]);
      ConcatStep(lines, i - 1);
      assert lines[..i] == lines[..i - 1 + 1];
    } else {
      assert lines[..0] == [];
    }
  }
}
