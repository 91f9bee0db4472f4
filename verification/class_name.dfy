/** `Base::validateClassName`: a class name is accepted when every segment
    between separators ("/" or "\") is a PHP identifier, as the pattern
    `^[a-zA-Z_\x80-\xff][a-zA-Z0-9_\x80-\xff]*$` decides it. */
module ClassName {
  import opened Text
  import opened Results

  predicate IsHead(c: char) {
    ('a' <= c <= 'z') || ('A' <= c <= 'Z') || c == '_' || ('\U{80}' <= c <= '\U{FF}')
  }

  predicate IsTail(c: char) {
    IsHead(c) || ('0' <= c <= '9')
  }

  /** A segment the character classes alone accept. */
  predicate IsIdentifier(seg: string) {
    seg != "" && IsHead(seg[0]) && forall i :: 1 <= i < |seg| ==> IsTail(seg[i])
  }

  /** PCRE's `$` without the D modifier also matches before one final "\n",
      so an identifier followed by a newline passes the pattern too. */
  predicate SegmentMatches(seg: string) {
    IsIdentifier(seg) || (EndsWith(seg, "\n") && IsIdentifier(seg[..|seg| - 1]))
  }

  predicate AllMatch(segs: seq<string>) {
    forall k :: 0 <= k < |segs| ==> SegmentMatches(segs[k])
  }

  /** Both separators a class name may be written with. */
  const Separators: set<char> := {'/', '\\'}

  /** Every "/" written as "\". */
  function Normalise(name: string): (n: string)
    ensures |n| == |name|
    ensures forall i :: 0 <= i < |name| ==> n[i] == if name[i] == '/' then '\\' else name[i]
  {
    ReplaceCharPointwise(name, '/', '\\');
    ReplaceAll(name, "/", "\\")
  }

  /** The segments `explode('\\', …)` yields after normalising. */
  function Segments(name: string): seq<string> {
    Split(Normalise(name), '\\')
  }

  /** The outcome: accepted, or rejected with the normalised name, the first
      offending segment and the column the message's arrows point at. */
  datatype Verdict = Valid | Invalid(name: string, segment: string, column: nat)

  /** The index of the first segment the pattern rejects. */
  function FirstInvalid(segs: seq<string>): (r: Option<nat>)
    ensures r.None? <==> AllMatch(segs)
    ensures r.Some? ==> r.value < |segs| && !SegmentMatches(segs[r.value])
    ensures r.Some? ==> AllMatch(segs[..r.value])
    decreases |segs|
  {
    if segs == [] then None
    else if !SegmentMatches(segs[0]) then Some(0)
    else
      match FirstInvalid(segs[1..])
      case None => None
      case Some(k) =>
        assert segs[..k + 1] == [segs[0]] + segs[1..][..k];
        Some(k + 1)
  }

  /** Where the `k`-th segment starts in the joined name. */
  function Offset(segs: seq<string>, k: nat): nat
    requires k < |segs|
  {
    if k == 0 then 0 else |segs[0]| + 1 + Offset(segs[1..], k - 1)
  }

  /** `strpos`: the first occurrence, or 0 when there is none (PHP's `false`
      repeats a space zero times). */
  function StrPos(s: string, key: string): nat {
    var i := FindFrom(s, key, 0);
    if i < 0 then 0 else i
  }

  /** `validateClassName` as written: the arrows point at the first place the
      offending segment's text occurs anywhere in the name. */
  function ValidateAsWritten(name: string): Verdict {
    var n := Normalise(name);
    var segs := Split(n, '\\');
    match FirstInvalid(segs)
    case None => Valid
    case Some(k) => Invalid(n, segs[k], StrPos(n, segs[k]))
  }

  /** `validateClassName` with the arrows under the offending segment itself. */
  function Validate(name: string): Verdict {
    var n := Normalise(name);
    var segs := Split(n, '\\');
    match FirstInvalid(segs)
    case None => Valid
    case Some(k) => Invalid(n, segs[k], Offset(segs, k))
  }

  /** "↓" and "↑" as the three UTF-8 bytes the source file holds. */
  const DownArrow: string := "\U{E2}\U{86}\U{93}"
  const UpArrow: string := "\U{E2}\U{86}\U{91}"

  /** The four lines of the `ValidationException` message: the heading, the
      down arrow after `column` spaces, the name, and the up arrow in the
      same column. */
  function Message(v: Verdict): (lines: seq<string>)
    requires v.Invalid?
    ensures |lines| == 4 && lines[0] == "Invalid class name" && lines[2] == v.name
    ensures |lines[1]| == |lines[3]| == v.column + |DownArrow|
    ensures forall i :: 0 <= i < v.column ==> lines[1][i] == ' ' && lines[3][i] == ' '
    ensures lines[1][v.column..] == DownArrow && lines[3][v.column..] == UpArrow
  {
    ["Invalid class name", Spaces(v.column) + DownArrow, v.name, Spaces(v.column) + UpArrow]
  }

  // ---------------------------------------------------------------------
  // What the verdict means

  lemma NormaliseCons(s: string)
    requires s != ""
    ensures Normalise(s) == [if s[0] == '/' then '\\' else s[0]] + Normalise(s[1..])
  {
    var a := Normalise(s);
    var b := [if s[0] == '/' then '\\' else s[0]] + Normalise(s[1..]);
    assert forall i :: 0 <= i < |s| ==> a[i] == b[i] by {
      forall i | 0 <= i < |s| ensures a[i] == b[i] {
        if i > 0 {
          assert s[1..][i - 1] == s[i];
        }
      }
    }
  }

  /** Splitting the normalised name at "\" is splitting the raw name at both separators. */
  lemma {:induction false} SegmentsOfRaw(name: string)
    ensures Segments(name) == SplitOn(name, Separators)
    decreases |name|
  {
    if name != "" {
      NormaliseCons(name);
      SegmentsOfRaw(name[1..]);
      var n := Normalise(name);
      assert n[1..] == Normalise(name[1..]);
    }
  }

  /** A name is accepted exactly when every segment matches the pattern. */
  lemma ValidIff(name: string)
    ensures Validate(name).Valid? <==> AllMatch(Segments(name))
    ensures Validate(name).Valid? <==> ValidateAsWritten(name).Valid?
  {
  }

  /** Writing "/" or "\" between the segments makes no difference at all. */
  lemma SeparatorAgnostic(a: string, b: string)
    requires |a| == |b|
    requires forall i :: 0 <= i < |a| ==> a[i] == b[i] || (a[i] in Separators && b[i] in Separators)
    ensures Validate(a) == Validate(b)
    ensures ValidateAsWritten(a) == ValidateAsWritten(b)
  {
    assert Normalise(a) == Normalise(b);
  }

  /** An empty segment (an empty name, a leading, trailing or doubled
      separator) or one starting with a digit is rejected. */
  lemma RejectsBadSegment(name: string, k: nat)
    requires k < |Segments(name)|
    requires Segments(name)[k] == "" || '0' <= Segments(name)[k][0] <= '9'
    ensures Validate(name).Invalid?
  {
    var seg := Segments(name)[k];
    if |seg| > 1 {
      assert seg[..|seg| - 1][0] == seg[0];
    }
    assert !SegmentMatches(seg);
  }

  lemma EmptyNameRejected()
    ensures Validate("") == Invalid("", "", 0)
  {
    assert Segments("") == [""];
  }

  /** The arrows of the corrected message sit under the offending segment:
      it starts at the column, right after a separator or at the start, and
      ends at a separator or at the end of the name. */
  lemma CaretUnderSegment(name: string)
    requires Validate(name).Invalid?
    ensures var v := Validate(name);
      && v.column + |v.segment| <= |v.name|
      && v.name[v.column..v.column + |v.segment|] == v.segment
      && (v.column == 0 || v.name[v.column - 1] == '\\')
      && (v.column + |v.segment| == |v.name| || v.name[v.column + |v.segment|] == '\\')
  {
    var n := Normalise(name);
    var segs := Split(n, '\\');
    var k := FirstInvalid(segs).value;
    assert Validate(name) == Invalid(n, segs[k], Offset(segs, k));
    JoinSplit(n, '\\');
    JoinAt(segs, '\\', k);
  }

  /** The `k`-th piece of a join sits at its offset between separators. */
  lemma {:induction false} JoinAt(parts: seq<string>, c: char, k: nat)
    requires k < |parts|
    ensures var s, o := Join(parts, [c]), Offset(parts, k);
      && o + |parts[k]| <= |s|
      && s[o..o + |parts[k]|] == parts[k]
      && (o == 0 || s[o - 1] == c)
      && (o + |parts[k]| == |s| || s[o + |parts[k]|] == c)
    decreases k
  {
    var s := Join(parts, [c]);
    if k == 0 {
      if |parts| > 1 {
        assert s == parts[0] + [c] + Join(parts[1..], [c]);
        assert s[..|parts[0]|] == parts[0];
      }
    } else {
      JoinAt(parts[1..], c, k - 1);
      var pre, rest := parts[0] + [c], Join(parts[1..], [c]);
      assert s == pre + rest;
      assert parts[1..][k - 1] == parts[k];
      var o := Offset(parts[1..], k - 1);
      assert Offset(parts, k) == |pre| + o;
      ShiftWindow(pre, rest, o, |parts[k]|, c);
    }
  }

  /** A window of `rest` between `c`s (or its ends) is a window of
      `pre + rest` between `c`s when `pre` ends in `c`. */
  lemma ShiftWindow(pre: string, rest: string, o: nat, len: nat, c: char)
    requires pre != [] && pre[|pre| - 1] == c
    requires o + len <= |rest|
    requires o == 0 || rest[o - 1] == c
    requires o + len == |rest| || rest[o + len] == c
    ensures var s, p := pre + rest, |pre| + o;
      && s[p..p + len] == rest[o..o + len]
      && s[p - 1] == c
      && (p + len == |s| || s[p + len] == c)
  {
  }

  /** As written the arrows point at the first occurrence of the segment's
      text, which is never later than the segment itself; otherwise the two
      verdicts agree. */
  lemma AsWrittenCaretNoLater(name: string)
    ensures Validate(name).Invalid? <==> ValidateAsWritten(name).Invalid?
    ensures Validate(name).Invalid? ==>
      && ValidateAsWritten(name).name == Validate(name).name
      && ValidateAsWritten(name).segment == Validate(name).segment
      && ValidateAsWritten(name).column <= Validate(name).column
  {
    if Validate(name).Invalid? {
      CaretUnderSegment(name);
      var v := Validate(name);
      assert OccursAt(v.name, v.segment, v.column);
    }
  }

  /** "A1/1": the digit-led second segment is rejected, but the arrows point
      into "A1", where a "1" first occurs, instead of at column 3. */
  lemma CaretMisplaced()
    ensures ValidateAsWritten("A1/1") == Invalid("A1\\1", "1", 1)
    ensures Validate("A1/1") == Invalid("A1\\1", "1", 3)
  {
    CaretAsWritten();
    CaretIntended();
  }

  lemma CaretAsWritten()
    ensures ValidateAsWritten("A1/1") == Invalid("A1\\1", "1", 1)
  {
    CaretNormalise();
    CaretSplit();
    CaretFirstInvalid();
    CaretFound();
  }

  lemma CaretIntended()
    ensures Validate("A1/1") == Invalid("A1\\1", "1", 3)
  {
    CaretNormalise();
    CaretSplit();
    CaretFirstInvalid();
    assert Offset(["A1", "1"], 1) == 3;
  }

  lemma CaretNormalise()
    ensures Normalise("A1/1") == "A1\\1"
  {
  }

  lemma CaretSplit()
    ensures Split("A1\\1", '\\') == ["A1", "1"]
  {
    var n := "A1\\1";
    SplitOfFree("1", '\\');
    SplitOfFree("A1", '\\');
    assert n[1..] == "1\\1";
    assert n[1..][1..] == "\\1";
    assert n[1..][1..][1..] == "1";
  }

  lemma CaretFirstInvalid()
    ensures FirstInvalid(["A1", "1"]) == Some(1)
  {
    assert SegmentMatches("A1");
    assert ["A1", "1"][1..] == ["1"];
    assert !SegmentMatches("1");
  }

  lemma CaretFound()
    ensures FindFrom("A1\\1", "1", 0) == 1
  {
    var n := "A1\\1";
    assert n[0] == 'A' && n[0..1] != "1";
    assert n[1..2] == "1";
  }

  // ---------------------------------------------------------------------
  // A one-pass recogniser, as an independent reference

  /** How far the current segment has got against the pattern. */
  datatype Progress = Fresh | Word | WordNewline | Stuck

  function ProgressOf(seg: string): Progress {
    if seg == "" then Fresh
    else if IsIdentifier(seg) then Word
    else if EndsWith(seg, "\n") && IsIdentifier(seg[..|seg| - 1]) then WordNewline
    else Stuck
  }

  /** One character of a segment. */
  function Advance(p: Progress, c: char): Progress {
    match p
    case Fresh => if IsHead(c) then Word else Stuck
    case Word => if IsTail(c) then Word else if c == '\n' then WordNewline else Stuck
    case WordNewline => Stuck
    case Stuck => Stuck
  }

  lemma AdvanceSound(seg: string, c: char)
    ensures ProgressOf(seg + [c]) == Advance(ProgressOf(seg), c)
  {
    var t := seg + [c];
    assert t[..|t| - 1] == seg;
    assert forall i :: 0 <= i < |seg| ==> t[i] == seg[i];
    match ProgressOf(seg)
    case Fresh =>
      assert t == [c];
    case Word =>
      assert t[|t| - 1] == c && t[|t| - 1..] == [c];
      if IsTail(c) {
        forall i | 1 <= i < |t| ensures IsTail(t[i]) {
          if i < |seg| {
            assert t[i] == seg[i];
          }
        }
      }
    case WordNewline =>
      assert !IsTail(seg[|seg| - 1]);
      assert !IsIdentifier(t);
      assert !IsIdentifier(seg);
    case Stuck =>
  }

  function Init(segs: seq<string>): seq<string>
    requires segs != []
  {
    segs[..|segs| - 1]
  }

  function Last(segs: seq<string>): string
    requires segs != []
  {
    segs[|segs| - 1]
  }

  /** Appending one character to the text extends its split at the back. */
  lemma {:induction false} SplitOnSnoc(s: string, seps: set<char>, c: char)
    ensures SplitOn(s + [c], seps) ==
      if c in seps then SplitOn(s, seps) + [""]
      else Init(SplitOn(s, seps)) + [Last(SplitOn(s, seps)) + [c]]
    decreases |s|
  {
    if s == "" {
      assert s + [c] == [c];
      SplitOnSingle(c, seps);
    } else {
      SplitOnSnoc(s[1..], seps, c);
      if c in seps {
        SnocSeparator(s, seps, c);
      } else {
        SnocOther(s, seps, c);
      }
    }
  }

  lemma SplitOnSingle(c: char, seps: set<char>)
    ensures SplitOn([c], seps) == if c in seps then ["", ""] else [[c]]
  {
    assert [c][1..] == "";
    assert [c] + "" == [c];
  }

  /** The split of a text whose first character is no separator: that
      character glued to the front of the rest's first piece. */
  function Glue(x: char, rest: seq<string>): seq<string>
    requires rest != []
  {
    [[x] + rest[0]] + rest[1..]
  }

  lemma {:induction false} SplitOnCons(s: string, seps: set<char>)
    requires s != ""
    ensures SplitOn(s, seps) ==
      if s[0] in seps then [""] + SplitOn(s[1..], seps) else Glue(s[0], SplitOn(s[1..], seps))
  {
  }

  /** The step of `SplitOnSnoc` for a separator. */
  lemma {:induction false} SnocSeparator(s: string, seps: set<char>, c: char)
    requires s != "" && c in seps
    requires SplitOn(s[1..] + [c], seps) == SplitOn(s[1..], seps) + [""]
    ensures SplitOn(s + [c], seps) == SplitOn(s, seps) + [""]
  {
    var t := s + [c];
    assert t[0] == s[0] && t[1..] == s[1..] + [c];
    SplitOnCons(s, seps);
    SplitOnCons(t, seps);
    var rest := SplitOn(s[1..], seps);
    if s[0] !in seps {
      assert Glue(s[0], rest + [""]) == Glue(s[0], rest) + [""];
    }
  }

  /** The step of `SplitOnSnoc` for any other character. */
  lemma {:induction false} SnocOther(s: string, seps: set<char>, c: char)
    requires s != "" && c !in seps
    requires SplitOn(s[1..] + [c], seps)
          == Init(SplitOn(s[1..], seps)) + [Last(SplitOn(s[1..], seps)) + [c]]
    ensures SplitOn(s + [c], seps) == Init(SplitOn(s, seps)) + [Last(SplitOn(s, seps)) + [c]]
  {
    var t := s + [c];
    assert t[0] == s[0] && t[1..] == s[1..] + [c];
    SplitOnCons(s, seps);
    SplitOnCons(t, seps);
    var rest := SplitOn(s[1..], seps);
    if s[0] in seps {
      SnocBehindBlank(rest, c);
    } else {
      SnocBehindGlue(s[0], rest, c);
    }
  }

  lemma {:induction false} SnocBehindBlank(rest: seq<string>, c: char)
    requires rest != []
    ensures [""] + (Init(rest) + [Last(rest) + [c]]) == Init([""] + rest) + [Last([""] + rest) + [c]]
  {
    assert Init([""] + rest) == [""] + Init(rest);
  }

  lemma {:induction false} SnocBehindGlue(x: char, rest: seq<string>, c: char)
    requires rest != []
    ensures Glue(x, Init(rest) + [Last(rest) + [c]]) == Init(Glue(x, rest)) + [Last(Glue(x, rest)) + [c]]
  {
    if |rest| == 1 {
      assert [x] + (rest[0] + [c]) == ([x] + rest[0]) + [c];
    } else {
      assert Init(Glue(x, rest)) == [[x] + rest[0]] + Init(rest)[1..];
    }
  }

  /** A segment read to its end matches the pattern. */
  predicate Finished(p: Progress) {
    p == Word || p == WordNewline
  }

  lemma FinishedIff(seg: string)
    ensures Finished(ProgressOf(seg)) <==> SegmentMatches(seg)
  {
  }

  lemma AllMatchSnoc(segs: seq<string>, seg: string)
    ensures AllMatch(segs + [seg]) <==> AllMatch(segs) && SegmentMatches(seg)
  {
    if AllMatch(segs) && SegmentMatches(seg) {
      forall k | 0 <= k < |segs| + 1 ensures SegmentMatches((segs + [seg])[k]) {
        if k < |segs| {
          assert (segs + [seg])[k] == segs[k];
        }
      }
    }
    if AllMatch(segs + [seg]) {
      assert (segs + [seg])[|segs|] == seg;
      forall k | 0 <= k < |segs| ensures SegmentMatches(segs[k]) {
        assert (segs + [seg])[k] == segs[k];
      }
    }
  }

  /** A separator closes the current segment and opens an empty one. */
  lemma StepSeparator(s: string, c: char)
    requires c in Separators
    ensures var a, b := SplitOn(s, Separators), SplitOn(s + [c], Separators);
      && (AllMatch(Init(b)) <==> AllMatch(Init(a)) && Finished(ProgressOf(Last(a))))
      && ProgressOf(Last(b)) == Fresh
  {
    var a := SplitOn(s, Separators);
    SplitOnSnoc(s, Separators, c);
    assert Init(a + [""]) == a;
    assert a == Init(a) + [Last(a)];
    AllMatchSnoc(Init(a), Last(a));
    FinishedIff(Last(a));
  }

  /** Any other character extends the current segment. */
  lemma StepLetter(s: string, c: char)
    requires c !in Separators
    ensures var a, b := SplitOn(s, Separators), SplitOn(s + [c], Separators);
      && Init(b) == Init(a)
      && ProgressOf(Last(b)) == Advance(ProgressOf(Last(a)), c)
  {
    var a := SplitOn(s, Separators);
    SplitOnSnoc(s, Separators, c);
    AdvanceSound(Last(a), c);
    assert Init(Init(a) + [Last(a) + [c]]) == Init(a);
  }

  /** The verdict in terms of the raw split: the finished segments all match
      and so does the last. */
  lemma RecogniseEnd(name: string)
    ensures var segs := SplitOn(name, Separators);
      Validate(name).Valid? <==> AllMatch(Init(segs)) && Finished(ProgressOf(Last(segs)))
  {
    SegmentsOfRaw(name);
    var segs := SplitOn(name, Separators);
    assert segs == Init(segs) + [Last(segs)];
    AllMatchSnoc(Init(segs), Last(segs));
    FinishedIff(Last(segs));
    ValidIff(name);
  }

  /** Reads the raw name once, left to right, keeping only whether a finished
      segment failed and how far the current one has got. */
  method Recognise(name: string) returns (ok: bool)
    ensures ok <==> Validate(name).Valid?
  {
    var failed := false;
    var p := Fresh;
    var i := 0;
    assert name[..0] == "";
    while i < |name|
      invariant 0 <= i <= |name|
      invariant failed <==> !AllMatch(Init(SplitOn(name[..i], Separators)))
      invariant p == ProgressOf(Last(SplitOn(name[..i], Separators)))
    {
      var c := name[i];
      assert name[..i + 1] == name[..i] + [c];
      if c in Separators {
        StepSeparator(name[..i], c);
        failed := failed || !Finished(p);
        p := Fresh;
      } else {
        StepLetter(name[..i], c);
        p := Advance(p, c);
      }
      i := i + 1;
    }
    assert name[..i] == name;
    RecogniseEnd(name);
    ok := !failed && Finished(p);
  }
}
