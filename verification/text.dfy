/** PHP string primitives the console tooling is built from.

    A PHP string is a sequence of bytes; here it is a `string` whose
    characters stand for those bytes, so `strlen` is `|s|`.  Only the
    behaviour the tooling relies on is modelled: `trim`, `rtrim`, `ucfirst`,
    `strtolower`, `strtoupper`, `explode`/`preg_split` on single characters,
    `implode`, `str_replace`, `str_repeat`, `str_pad`, `strpos` and PHP's
    notion of a falsy string. */
module Text {

  /** PHP's `empty()` on a string, which is also what `array_filter` drops:
      the empty string and the string "0". */
  predicate Falsy(s: string) {
    s == "" || s == "0"
  }

  predicate StartsWith(s: string, prefix: string) {
    |prefix| <= |s| && s[..|prefix|] == prefix
  }

  predicate EndsWith(s: string, suffix: string) {
    |suffix| <= |s| && s[|s| - |suffix|..] == suffix
  }

  /** `str_repeat($c, $n)` for a one-character string. */
  function Repeat(c: char, n: nat): (r: string)
    ensures |r| == n
    ensures forall i :: 0 <= i < n ==> r[i] == c
  {
    if n == 0 then "" else [c] + Repeat(c, n - 1)
  }

  function Spaces(n: nat): string {
    Repeat(' ', n)
  }

  /** `str_pad($s, $n)`: pads on the right with spaces up to length `n`;
      a string already that long comes back unchanged. */
  function PadRight(s: string, n: int): (r: string)
    ensures |r| == if |s| < n then n else |s|
    ensures r[..|s|] == s
    ensures forall i :: |s| <= i < |r| ==> r[i] == ' '
  {
    if |s| < n then s + Spaces(n - |s|) else s
  }

  /** The characters `trim` strips by default: space, tab, newline,
      carriage return, NUL and vertical tab. */
  predicate IsTrimmable(c: char) {
    c == ' ' || c == '\t' || c == '\n' || c == '\r' || c == '\0' || c == '\U{000B}'
  }

  function TrimLeft(s: string): (r: string)
    ensures |r| <= |s| && r == s[|s| - |r|..]
    ensures r == "" || !IsTrimmable(r[0])
    ensures forall i :: 0 <= i < |s| - |r| ==> IsTrimmable(s[i])
  {
    if s != [] && IsTrimmable(s[0]) then TrimLeft(s[1..]) else s
  }

  /** `rtrim($s, $c)` for a one-character strip set. */
  function TrimRightChar(s: string, c: char): (r: string)
    ensures |r| <= |s| && r == s[..|r|]
    ensures r == "" || r[|r| - 1] != c
    ensures forall i :: |r| <= i < |s| ==> s[i] == c
  {
    if s != [] && s[|s| - 1] == c then TrimRightChar(s[..|s| - 1], c) else s
  }

  function TrimRight(s: string): (r: string)
    ensures |r| <= |s| && r == s[..|r|]
    ensures r == "" || !IsTrimmable(r[|r| - 1])
    ensures forall i :: |r| <= i < |s| ==> IsTrimmable(s[i])
  {
    if s != [] && IsTrimmable(s[|s| - 1]) then TrimRight(s[..|s| - 1]) else s
  }

  /** `trim($s)`. */
  function Trim(s: string): string {
    TrimRight(TrimLeft(s))
  }

  predicate IsLower(c: char) {
    'a' <= c <= 'z'
  }

  predicate IsUpper(c: char) {
    'A' <= c <= 'Z'
  }

  function UpperChar(c: char): char {
    if IsLower(c) then (c as int - 32) as char else c
  }

  function LowerChar(c: char): char {
    if IsUpper(c) then (c as int + 32) as char else c
  }

  /** `ucfirst($s)`: only an ASCII lower-case first byte changes. */
  function Ucfirst(s: string): (r: string)
    ensures |r| == |s|
    ensures s != "" ==> r[0] == UpperChar(s[0]) && r[1..] == s[1..]
  {
    if s == "" then s else [UpperChar(s[0])] + s[1..]
  }

  /** `strtolower($s)`: ASCII only, byte for byte. */
  function Lower(s: string): (r: string)
    ensures |r| == |s|
    ensures forall i :: 0 <= i < |s| ==> r[i] == LowerChar(s[i])
  {
    if s == "" then "" else [LowerChar(s[0])] + Lower(s[1..])
  }

  /** `strtoupper($s)`: ASCII only, byte for byte. */
  function Upper(s: string): (r: string)
    ensures |r| == |s|
    ensures forall i :: 0 <= i < |s| ==> r[i] == UpperChar(s[i])
  {
    if s == "" then "" else [UpperChar(s[0])] + Upper(s[1..])
  }

  /** Splits `s` at every character of `seps`, keeping empty pieces:
      `explode` for one separator, `preg_split` on a character alternation
      for several.  There is always at least one piece. */
  function SplitOn(s: string, seps: set<char>): (r: seq<string>)
    ensures |r| >= 1
    decreases |s|
  {
    if s == "" then [""]
    else
      var rest := SplitOn(s[1..], seps);
      if s[0] in seps then [""] + rest else [[s[0]] + rest[0]] + rest[1..]
  }

  function Split(s: string, sep: char): seq<string> {
    SplitOn(s, {sep})
  }

  /** `implode($sep, $parts)`. */
  function Join(parts: seq<string>, sep: string): string {
    if |parts| == 0 then ""
    else if |parts| == 1 then parts[0]
    else parts[0] + sep + Join(parts[1..], sep)
  }

  /** `implode('', $parts)`. */
  function Concat(parts: seq<string>): string {
    if |parts| == 0 then "" else parts[0] + Concat(parts[1..])
  }

  /** `str_replace($key, $by, $s)`: scans left to right, replacing each
      non-overlapping occurrence; replaced text is not scanned again.
      An empty key leaves the subject alone. */
  function ReplaceAll(s: string, key: string, with: string): string
    decreases |s|
  {
    if key == "" || |s| < |key| then s
    else if s[..|key|] == key then with + ReplaceAll(s[|key|..], key, with)
    else [s[0]] + ReplaceAll(s[1..], key, with)
  }

  /** Does `key` occur in `s` at position `i`? */
  predicate OccursAt(s: string, key: string, i: int) {
    0 <= i && i + |key| <= |s| && s[i..i + |key|] == key
  }

  predicate Contains(s: string, key: string) {
    exists i | 0 <= i <= |s| :: OccursAt(s, key, i)
  }

  /** `strpos($s, $key)`: the first position at or after `from`. */
  function FindFrom(s: string, key: string, from: nat): (r: int)
    requires from <= |s|
    ensures r == -1 || from <= r
    ensures r != -1 ==> OccursAt(s, key, r)
    ensures forall i :: from <= i && (r == -1 || i < r) ==> !OccursAt(s, key, i)
    decreases |s| - from
  {
    if from + |key| > |s| then -1
    else if s[from..from + |key|] == key then from
    else if from == |s| then -1
    else FindFrom(s, key, from + 1)
  }

  /** The longest string in a non-empty list, as `max(array_map('strlen', …))`. */
  function MaxLength(ss: seq<string>): (r: nat)
    requires |ss| > 0
    ensures forall i :: 0 <= i < |ss| ==> |ss[i]| <= r
    ensures exists i :: 0 <= i < |ss| && |ss[i]| == r
  {
    if |ss| == 1 then |ss[0]|
    else
      var m := MaxLength(ss[1..]);
      assert forall i :: 1 <= i < |ss| ==> ss[i] == ss[1..][i - 1];
      if |ss[0]| >= m then |ss[0]| else m
  }

  // ---------------------------------------------------------------------
  // Facts about the primitives

  lemma {:induction false} ConcatAppend(a: seq<string>, b: seq<string>)
    ensures Concat(a + b) == Concat(a) + Concat(b)
    decreases |a|
  {
    if |a| == 0 {
      assert a + b == b;
    } else {
      assert (a + b)[1..] == a[1..] + b;
      ConcatAppend(a[1..], b);
    }
  }

  lemma {:induction false} SplitOnPieces(s: string, seps: set<char>)
    ensures forall i, j :: 0 <= i < |SplitOn(s, seps)| && 0 <= j < |SplitOn(s, seps)[i]|
              ==> SplitOn(s, seps)[i][j] !in seps
    decreases |s|
  {
    if s != "" {
      SplitOnPieces(s[1..], seps);
    }
  }

  /** Appending one more part adds the separator and the part. */
  lemma {:induction false} JoinSnoc(parts: seq<string>, last: string, sep: string)
    requires parts != []
    ensures Join(parts + [last], sep) == Join(parts, sep) + sep + last
    decreases |parts|
  {
    if |parts| > 1 {
      JoinSnoc(parts[1..], last, sep);
      assert (parts + [last])[1..] == parts[1..] + [last];
    } else {
      assert (parts + [last])[1..] == [last];
    }
  }

  /** A string not ending in "/" is unchanged by rtrim("/"). */
  lemma TrimFree(s: string)
    requires s != "" && s[|s| - 1] != '/'
    ensures TrimRightChar(s, '/') == s
  {
  }

  /** A join of several parts is the join of all but the last, the
      separator and the last part. */
  lemma JoinInit(parts: seq<string>, sep: string)
    requires |parts| > 1
    ensures Join(parts, sep) == Join(parts[..|parts| - 1], sep) + sep + parts[|parts| - 1]
  {
    JoinSnoc(parts[..|parts| - 1], parts[|parts| - 1], sep);
    assert parts[..|parts| - 1] + [parts[|parts| - 1]] == parts;
  }

  /** A join ends with its last part. */
  lemma {:induction false} JoinEndsWith(parts: seq<string>, sep: string)
    requires parts != []
    ensures EndsWith(Join(parts, sep), parts[|parts| - 1])
    decreases |parts|
  {
    if |parts| > 1 {
      JoinEndsWith(parts[1..], sep);
    }
  }

  /** Splitting and re-joining with the (single) separator is the identity. */
  lemma {:induction false} JoinSplit(s: string, c: char)
    ensures Join(Split(s, c), [c]) == s
    decreases |s|
  {
    if s != "" {
      JoinSplit(s[1..], c);
      var rest := Split(s[1..], c);
      if s[0] == c {
        assert Split(s, c) == [""] + rest;
        assert ([""] + rest)[1..] == rest;
      } else {
        assert Split(s, c) == [[s[0]] + rest[0]] + rest[1..];
        if |rest| == 1 {
        } else {
          assert Join(rest, [c]) == rest[0] + [c] + Join(rest[1..], [c]);
          assert ([[s[0]] + rest[0]] + rest[1..])[1..] == rest[1..];
        }
      }
    }
  }

  /** Joining pieces free of the separator and splitting again gives the pieces back. */
  lemma {:induction false} SplitJoin(parts: seq<string>, c: char)
    requires |parts| >= 1
    requires forall i :: 0 <= i < |parts| ==> c !in parts[i]
    ensures Split(Join(parts, [c]), c) == parts
    decreases |parts|, |parts[0]|
  {
    if |parts| == 1 {
      SplitOfFree(parts[0], c);
    } else if parts[0] == "" {
      SplitJoin(parts[1..], c);
      var s := Join(parts, [c]);
      assert s == [c] + Join(parts[1..], [c]);
      assert s[1..] == Join(parts[1..], [c]);
      assert parts == [""] + parts[1..];
    } else {
      var tail := [parts[0][1..]] + parts[1..];
      assert tail[1..] == parts[1..];
      SplitJoin(tail, c);
      var s := Join(parts, [c]);
      assert Join(tail, [c]) == parts[0][1..] + [c] + Join(parts[1..], [c]);
      assert s == [parts[0][0]] + Join(tail, [c]);
      assert s[1..] == Join(tail, [c]);
      assert [parts[0][0]] + tail[0] == parts[0];
      assert parts == [[parts[0][0]] + tail[0]] + tail[1..];
    }
  }

  lemma {:induction false} SplitOfFree(s: string, c: char)
    requires c !in s
    ensures Split(s, c) == [s]
    decreases |s|
  {
    if s != "" {
      assert s[0] != c && c !in s[1..];
      SplitOfFree(s[1..], c);
      assert [s[0]] + s[1..] == s;
    }
  }

  /** Replacing a character by one other character keeps every position. */
  lemma {:induction false} ReplaceCharPointwise(s: string, a: char, b: char)
    ensures |ReplaceAll(s, [a], [b])| == |s|
    ensures forall i :: 0 <= i < |s| ==> ReplaceAll(s, [a], [b])[i] == (if s[i] == a then b else s[i])
    decreases |s|
  {
    if s != "" {
      ReplaceCharPointwise(s[1..], a, b);
    }
  }

  /** A subject in which the key does not occur is returned unchanged. */
  lemma {:induction false} ReplaceAbsent(s: string, key: string, with: string)
    requires !Contains(s, key)
    ensures ReplaceAll(s, key, with) == s
    decreases |s|
  {
    if key != "" && |s| >= |key| {
      assert !OccursAt(s, key, 0);
      forall i | OccursAt(s[1..], key, i)
        ensures false
      {
        assert s[1..][i..i + |key|] == s[i + 1..i + 1 + |key|];
        assert OccursAt(s, key, i + 1);
      }
      ReplaceAbsent(s[1..], key, with);
    }
  }
  /** Splitting at a separator splits each side of it. */
  lemma {:induction false} SplitSep(a: string, b: string, c: char)
    ensures Split(a + [c] + b, c) == Split(a, c) + Split(b, c)
    decreases |a|
  {
    var s := a + [c] + b;
    if a == "" {
      assert s[1..] == b;
    } else {
      assert s[0] == a[0] && s[1..] == a[1..] + [c] + b;
      SplitSep(a[1..], b, c);
    }
  }

  /** `ucfirst` of every piece of a `c`-separated list. */
  function UcfirstAll(parts: seq<string>): seq<string> {
    seq(|parts|, i requires 0 <= i < |parts| => Ucfirst(parts[i]))
  }

  /** `s` with its first character and every character just after a `c`
      given a capital, and nothing else changed. */
  function CapAfter(s: string, c: char): string {
    seq(|s|, i requires 0 <= i < |s| => if i == 0 || s[i - 1] == c then UpperChar(s[i]) else s[i])
  }

  /** Capitalising every `c`-piece of `s` and joining them again capitalises
      `s` after each `c`. */
  lemma {:induction false} CapitalisedPieces(s: string, c: char)
    requires !IsLower(c)
    ensures Join(UcfirstAll(Split(s, c)), [c]) == CapAfter(s, c)
    decreases |s|
  {
    if c !in s {
      SplitOfFree(s, c);
      assert UcfirstAll([s]) == [Ucfirst(s)];
      assert Ucfirst(s) == CapAfter(s, c);
    } else {
      var k := FirstOf(s, c);
      var a, b := s[..k], s[k + 1..];
      assert s == a + [c] + b;
      CapitalisedPieces(b, c);
      CapitalisedFirst(a, b, c);
    }
  }

  /** The step of `CapitalisedPieces`: the piece before the first `c`. */
  lemma {:induction false} CapitalisedFirst(a: string, b: string, c: char)
    requires c !in a && !IsLower(c)
    requires Join(UcfirstAll(Split(b, c)), [c]) == CapAfter(b, c)
    ensures Join(UcfirstAll(Split(a + [c] + b, c)), [c]) == CapAfter(a + [c] + b, c)
  {
    SplitSep(a, b, c);
    SplitOfFree(a, c);
    var pb := Split(b, c);
    assert Split(a + [c] + b, c) == [a] + pb;
    UcfirstAllCons(a, pb);
    JoinCons(Ucfirst(a), UcfirstAll(pb), [c]);
    CapAfterSplit(a, b, c);
  }

  lemma {:induction false} UcfirstAllCons(x: string, rest: seq<string>)
    ensures UcfirstAll([x] + rest) == [Ucfirst(x)] + UcfirstAll(rest)
  {
    var xs := [x] + rest;
    var l, r := UcfirstAll(xs), [Ucfirst(x)] + UcfirstAll(rest);
    assert |l| == |r|;
    forall i | 0 <= i < |l| ensures l[i] == r[i] {
      if i > 0 {
        assert xs[i] == rest[i - 1];
        assert r[i] == UcfirstAll(rest)[i - 1];
      }
    }
  }

  lemma {:induction false} JoinCons(x: string, rest: seq<string>, sep: string)
    requires rest != []
    ensures Join([x] + rest, sep) == x + sep + Join(rest, sep)
  {
    assert ([x] + rest)[1..] == rest;
  }

  /** The first position holding `c`. */
  function FirstOf(s: string, c: char): (k: nat)
    requires c in s
    ensures k < |s| && s[k] == c && c !in s[..k]
  {
    if s[0] == c then 0
    else
      var k := FirstOf(s[1..], c);
      assert s[..k + 1] == [s[0]] + s[1..][..k];
      k + 1
  }

  lemma CapAfterSplit(a: string, b: string, c: char)
    requires c !in a && !IsLower(c)
    ensures CapAfter(a + [c] + b, c) == Ucfirst(a) + [c] + CapAfter(b, c)
  {
    var s := a + [c] + b;
    var l, r := CapAfter(s, c), Ucfirst(a) + [c] + CapAfter(b, c);
    forall i | 0 <= i < |s| ensures l[i] == r[i] {
      if i < |a| {
        assert s[i] == a[i];
        if i > 0 {
          assert s[i - 1] == a[i - 1];
        }
      } else if i > |a| {
        assert s[i] == b[i - |a| - 1];
      }
    }
  }
}
