/** The regrouping of one section in `BaseMaker::writeServiceFile`: every
    line is filed under the most recent `'<id>' => function` identifier, the
    groups are concatenated per identifier in first-seen line order, and the
    groups are ordered by key (`ksort`). */
module ServiceGroups {
  import opened Text
  import opened Order
  import opened Results
  import opened Maker

  /** Two tabs and the opening quote of an identifier. */
  const IdentifierLead: string := Tabs(2) + "'"

  /** The number of spaces starting `t`. */
  function SpaceRun(t: string): (n: nat)
    ensures n <= |t|
    ensures forall i :: 0 <= i < n ==> t[i] == ' '
    ensures n == |t| || t[n] != ' '
  {
    if t != "" && t[0] == ' ' then 1 + SpaceRun(t[1..]) else 0
  }

  /** `t` starts with ` *=> *function`. The space runs are matched greedily;
      giving a space back could never help, since `=` or `f` must follow. */
  predicate ClosesIdentifier(t: string) {
    var a := SpaceRun(t);
    StartsWith(t[a..], "=>") && var u := t[a + 2..]; StartsWith(u[SpaceRun(u)..], "function")
  }

  /** The lazy `(.*?)` capture ends at position `n` of what follows the lead:
      no newline before it, a quote at it, and the rest of the pattern after. */
  ghost predicate CapturesAt(line: string, n: nat) {
    && StartsWith(line, IdentifierLead)
    && var rest := line[|IdentifierLead|..];
    && n <= |rest|
    && '\n' !in rest[..n]
    && EndsCapture(rest, n)
  }

  /** Position `n` holds the closing quote with the rest of the pattern after it. */
  predicate EndsCapture(rest: string, n: nat) {
    n < |rest| && rest[n] == '\'' && ClosesIdentifier(rest[n + 1..])
  }

  /** The positions of `rest` where the capture can end, as a test. */
  function EndsIn(rest: string): nat -> bool {
    (n: nat) => EndsCapture(rest, n)
  }

  /** The first `k` at or after `from`, with no newline before it, that
      `ends` accepts: the lazy capture tries to end at each position in turn
      before `.` takes one more character, and `.` takes no newline. */
  function FirstEnd(rest: string, from: nat, ends: nat -> bool): (r: Option<nat>)
    ensures r.Some? ==> from <= r.value < |rest| && ends(r.value)
    decreases |rest| - from
  {
    if from >= |rest| then None
    else if ends(from) then Some(from)
    else if rest[from] == '\n' then None
    else FirstEnd(rest, from + 1, ends)
  }

  /** Where the capture after the opening quote ends, if anywhere. */
  function CaptureEnd(rest: string): (r: Option<nat>)
    ensures r.Some? ==> r.value < |rest| && EndsCapture(rest, r.value)
  {
    FirstEnd(rest, 0, EndsIn(rest))
  }

  /** When the search succeeds, no earlier position is accepted and no
      newline comes before it. */
  lemma {:induction false} FirstEndFirst(rest: string, from: nat, ends: nat -> bool, k: nat)
    requires FirstEnd(rest, from, ends) == Some(k)
    ensures from <= k <= |rest| && '\n' !in rest[from..k]
    ensures forall n :: from <= n < k ==> !ends(n)
    decreases |rest| - from
  {
    if k != from {
      FirstEndFirst(rest, from + 1, ends, k);
      assert rest[from..k] == [rest[from]] + rest[from + 1..k];
    }
  }

  /** When the search fails, nothing before the first newline is accepted. */
  lemma {:induction false} FirstEndNone(rest: string, from: nat, ends: nat -> bool)
    requires from <= |rest| && FirstEnd(rest, from, ends).None?
    ensures forall n :: from <= n < |rest| && '\n' !in rest[from..n] ==> !ends(n)
    decreases |rest| - from
  {
    if from < |rest| && !ends(from) && rest[from] != '\n' {
      FirstEndNone(rest, from + 1, ends);
      forall n | from + 1 <= n < |rest| && '\n' !in rest[from..n]
        ensures '\n' !in rest[from + 1..n]
      {
        assert rest[from + 1..n] == rest[from..n][1..];
      }
    } else if from < |rest| {
      forall n | from < n < |rest| ensures '\n' in rest[from..n] {
        assert rest[from..n][0] == '\n';
      }
    }
  }

  /** The identifier `^        '(.*?)' *=> *function` captures, if the line matches. */
  function IdentifierOf(line: string): (r: Option<string>)
    ensures r.Some? ==> StartsWith(line, IdentifierLead)
  {
    if !StartsWith(line, IdentifierLead) then None
    else
      var rest := line[|IdentifierLead|..];
      match CaptureEnd(rest)
      case None => None
      case Some(k) => Some(rest[..k])
  }

  /** `IdentifierOf` is the pattern's lazy match: it returns the shortest
      capture the pattern admits, and nothing when the pattern admits none. */
  lemma IdentifierIsLazyMatch(line: string)
    ensures IdentifierOf(line).Some? ==>
              var id := IdentifierOf(line).value;
              && CapturesAt(line, |id|)
              && id == line[|IdentifierLead|..|IdentifierLead| + |id|]
              && forall n :: 0 <= n < |id| ==> !CapturesAt(line, n)
    ensures IdentifierOf(line).None? ==> forall n :: !CapturesAt(line, n)
  {
    if StartsWith(line, IdentifierLead) {
      var rest := line[|IdentifierLead|..];
      if CaptureEnd(rest).None? {
        NoCapture(rest);
      } else {
        FirstCapture(rest, CaptureEnd(rest).value);
      }
    }
  }

  lemma NoCapture(rest: string)
    requires CaptureEnd(rest).None?
    ensures forall n :: 0 <= n <= |rest| && '\n' !in rest[..n] ==> !EndsCapture(rest, n)
  {
    FirstEndNone(rest, 0, EndsIn(rest));
    forall n | 0 <= n <= |rest| && '\n' !in rest[..n] ensures !EndsCapture(rest, n) {
      if n < |rest| {
        assert rest[..n] == rest[0..n];
        assert !EndsIn(rest)(n);
      }
    }
  }

  lemma FirstCapture(rest: string, k: nat)
    requires CaptureEnd(rest) == Some(k)
    ensures k < |rest| && '\n' !in rest[..k] && EndsCapture(rest, k)
    ensures forall n :: 0 <= n < k ==> !EndsCapture(rest, n)
  {
    FirstEndFirst(rest, 0, EndsIn(rest), k);
    assert rest[..k] == rest[0..k];
    forall n | 0 <= n < k ensures !EndsCapture(rest, n) {
      assert !EndsIn(rest)(n);
    }
  }

  // ---------------------------------------------------------------------
  // Which group each line belongs to

  /** The key after reading `line` when `key` was in force: a matching line
      sets it, any other line leaves it. */
  function NextKey(key: string, line: string): string {
    match IdentifierOf(line)
    case Some(id) => id
    case None => key
  }

  /** The key each line is filed under, starting from `key`. */
  function OwnersFrom(key: string, lines: seq<string>): (r: seq<string>)
    ensures |r| == |lines|
    decreases |lines|
  {
    if lines == [] then []
    else var k := NextKey(key, lines[0]); [k] + OwnersFrom(k, lines[1..])
  }

  /** `$sIdentifier` starts as null, which as an array key is "". */
  function Owners(lines: seq<string>): seq<string> {
    OwnersFrom("", lines)
  }

  /** The key in force after reading all of `lines`. */
  function KeyAfter(key: string, lines: seq<string>): string
    decreases |lines|
  {
    if lines == [] then key else KeyAfter(NextKey(key, lines[0]), lines[1..])
  }

  /** The keys in force along `lines` for any rule `next` that reads one line. */
  function Scan(key: string, lines: seq<string>, next: (string, string) -> string): (r: seq<string>)
    ensures |r| == |lines|
    decreases |lines|
  {
    if lines == [] then [] else var k := next(key, lines[0]); [k] + Scan(k, lines[1..], next)
  }

  lemma {:induction false} ScanStep(key: string, lines: seq<string>, next: (string, string) -> string, i: nat)
    requires i < |lines|
    ensures Scan(key, lines, next)[i] == next(if i == 0 then key else Scan(key, lines, next)[i - 1], lines[i])
    decreases i
  {
    if i > 0 {
      var k := next(key, lines[0]);
      ScanStep(k, lines[1..], next, i - 1);
      assert lines[1..][i - 1] == lines[i];
    }
  }

  lemma {:induction false} OwnersAreScan(key: string, lines: seq<string>)
    ensures OwnersFrom(key, lines) == Scan(key, lines, NextKey)
    decreases |lines|
  {
    if lines != [] {
      OwnersAreScan(NextKey(key, lines[0]), lines[1..]);
    }
  }

  /** Each line's key is what the line makes of the key before it. */
  lemma OwnerStep(key: string, lines: seq<string>, i: nat)
    requires i < |lines|
    ensures OwnersFrom(key, lines)[i] == NextKey(if i == 0 then key else OwnersFrom(key, lines)[i - 1], lines[i])
  {
    OwnersAreScan(key, lines);
    ScanStep(key, lines, NextKey, i);
  }

  /** A line that names an identifier is filed under that identifier. */
  lemma IdentifierLineOwner(key: string, lines: seq<string>, i: nat)
    requires i < |lines| && IdentifierOf(lines[i]).Some?
    ensures OwnersFrom(key, lines)[i] == IdentifierOf(lines[i]).value
  {
    OwnerStep(key, lines, i);
  }

  lemma {:induction false} OwnersAppend(key: string, a: seq<string>, b: seq<string>)
    ensures OwnersFrom(key, a + b) == OwnersFrom(key, a) + OwnersFrom(KeyAfter(key, a), b)
    decreases |a|
  {
    if a == [] {
      assert a + b == b;
    } else {
      assert (a + b)[0] == a[0] && (a + b)[1..] == a[1..] + b;
      OwnersAppend(NextKey(key, a[0]), a[1..], b);
    }
  }

  /** `n` copies of `k`. */
  function Copies(k: string, n: nat): (r: seq<string>)
    ensures |r| == n && forall i :: 0 <= i < n ==> r[i] == k
  {
    if n == 0 then [] else [k] + Copies(k, n - 1)
  }

  /** Every identifier line of `block` names `k`. */
  predicate OnlyNames(block: seq<string>, k: string) {
    forall i :: 0 <= i < |block| && IdentifierOf(block[i]).Some? ==> IdentifierOf(block[i]).value == k
  }

  /** A block whose identifier lines all name `k`, read while `k` is in
      force, is filed entirely under `k`. */
  lemma {:induction false} OwnersUniform(block: seq<string>, k: string)
    requires OnlyNames(block, k)
    ensures OwnersFrom(k, block) == Copies(k, |block|)
    ensures KeyAfter(k, block) == k
    decreases |block|
  {
    if block != [] {
      assert NextKey(k, block[0]) == k;
      assert OnlyNames(block[1..], k) by {
        forall i | 0 <= i < |block[1..]| && IdentifierOf(block[1..][i]).Some?
          ensures IdentifierOf(block[1..][i]).value == k
        {
          assert block[1..][i] == block[i + 1];
        }
      }
      OwnersUniform(block[1..], k);
    }
  }

  /** The same, when the block starts by naming `k` whatever key was in force. */
  lemma OwnersNamed(key: string, block: seq<string>, k: string)
    requires OnlyNames(block, k)
    requires key == k || (block != [] && IdentifierOf(block[0]) == Some(k))
    ensures OwnersFrom(key, block) == Copies(k, |block|)
    ensures KeyAfter(key, block) == k
  {
    if key != k {
      OwnersUniform(block[1..], k) by {
        forall i | 0 <= i < |block[1..]| && IdentifierOf(block[1..][i]).Some?
          ensures IdentifierOf(block[1..][i]).value == k
        {
          assert block[1..][i] == block[i + 1];
        }
      }
      assert OwnersFrom(key, block) == [k] + OwnersFrom(k, block[1..]);
    } else {
      OwnersUniform(block, k);
    }
  }

  // ---------------------------------------------------------------------
  // Groups

  /** The lines filed under `k`, in their original order. */
  function Pick(lines: seq<string>, owners: seq<string>, k: string): (r: seq<string>)
    requires |lines| == |owners|
    ensures |r| <= |lines|
    decreases |lines|
  {
    if lines == [] then []
    else (if owners[0] == k then [lines[0]] else []) + Pick(lines[1..], owners[1..], k)
  }

  lemma {:induction false} PickMembers(lines: seq<string>, owners: seq<string>, k: string, j: nat)
    requires |lines| == |owners| && j < |Pick(lines, owners, k)|
    ensures exists i :: 0 <= i < |lines| && owners[i] == k && lines[i] == Pick(lines, owners, k)[j]
    decreases |lines|
  {
    var head := if owners[0] == k then [lines[0]] else [];
    if j < |head| {
      assert owners[0] == k && lines[0] == Pick(lines, owners, k)[j];
    } else {
      PickMembers(lines[1..], owners[1..], k, j - |head|);
      var i :| 0 <= i < |lines[1..]| && owners[1..][i] == k && lines[1..][i] == Pick(lines[1..], owners[1..], k)[j - |head|];
      assert owners[i + 1] == k && lines[i + 1] == Pick(lines, owners, k)[j];
    }
  }

  /** The first line filed under `k` starts its group. */
  lemma {:induction false} PickFirst(lines: seq<string>, owners: seq<string>, k: string, i: nat)
    requires |lines| == |owners| && i < |lines| && owners[i] == k
    requires forall j :: 0 <= j < i ==> owners[j] != k
    ensures Pick(lines, owners, k) != [] && Pick(lines, owners, k)[0] == lines[i]
    decreases i
  {
    if i > 0 {
      PickFirst(lines[1..], owners[1..], k, i - 1);
    }
  }

  lemma {:induction false} PickAppend(a: seq<string>, oa: seq<string>, b: seq<string>, ob: seq<string>, k: string)
    requires |a| == |oa| && |b| == |ob|
    ensures Pick(a + b, oa + ob, k) == Pick(a, oa, k) + Pick(b, ob, k)
    decreases |a|
  {
    if a == [] {
      assert a + b == b && oa + ob == ob;
    } else {
      assert (a + b)[1..] == a[1..] + b && (oa + ob)[1..] == oa[1..] + ob;
      PickAppend(a[1..], oa[1..], b, ob, k);
    }
  }

  lemma {:induction false} PickUniform(block: seq<string>, j: string, k: string)
    ensures Pick(block, Copies(j, |block|), k) == if j == k then block else []
    decreases |block|
  {
    if block != [] {
      assert Copies(j, |block|)[1..] == Copies(j, |block| - 1);
      PickUniform(block[1..], j, k);
    }
  }

  /** Appending each line to the group of the key in force, for any rule
    `next` that reads one line. */
  function CollectBy(key: string, m: map<string, string>, lines: seq<string>, next: (string, string) -> string)
    : map<string, string>
    decreases |lines|
  {
    if lines == [] then m
    else
      var k := next(key, lines[0]);
      var prior := if k in m then m[k] else "";
      CollectBy(k, m[k := prior + lines[0]], lines[1..], next)
  }

  /** The groups as PHP collects them: `$aSections[$key] .= $line`. */
  function CollectFrom(key: string, m: map<string, string>, lines: seq<string>): map<string, string> {
    CollectBy(key, m, lines, NextKey)
  }

  function Collect(lines: seq<string>): map<string, string> {
    CollectFrom("", map[], lines)
  }

  /** Each collected group is exactly its lines, in order, glued together;
      a key is present exactly when some line is filed under it. */
  lemma {:induction false} CollectByAt(key: string, m: map<string, string>, lines: seq<string>,
                                       next: (string, string) -> string, k: string)
    ensures k in CollectBy(key, m, lines, next) <==> k in m || k in Scan(key, lines, next)
    ensures k in CollectBy(key, m, lines, next) ==>
              CollectBy(key, m, lines, next)[k]
              == (if k in m then m[k] else "") + Concat(Pick(lines, Scan(key, lines, next), k))
    decreases |lines|
  {
    if lines != [] {
      var k0 := next(key, lines[0]);
      var prior := if k0 in m then m[k0] else "";
      var m' := m[k0 := prior + lines[0]];
      var owners := Scan(key, lines, next);
      assert owners[0] == k0 && owners[1..] == Scan(k0, lines[1..], next);
      CollectByAt(k0, m', lines[1..], next, k);
      var rest := Pick(lines[1..], owners[1..], k);
      if k == k0 {
        assert Pick(lines, owners, k) == [lines[0]] + rest;
        assert Concat([lines[0]] + rest) == lines[0] + Concat(rest);
      } else {
        assert Pick(lines, owners, k) == rest;
      }
      assert k in owners <==> k == k0 || k in owners[1..];
    }
  }

  lemma CollectFromAt(key: string, m: map<string, string>, lines: seq<string>, k: string)
    ensures k in CollectFrom(key, m, lines) <==> k in m || k in OwnersFrom(key, lines)
    ensures k in CollectFrom(key, m, lines) ==>
              CollectFrom(key, m, lines)[k]
              == (if k in m then m[k] else "") + Concat(Pick(lines, OwnersFrom(key, lines), k))
  {
    OwnersAreScan(key, lines);
    CollectByAt(key, m, lines, NextKey, k);
  }

  lemma CollectAt(lines: seq<string>, k: string)
    ensures k in Collect(lines) <==> k in Owners(lines)
    ensures k in Collect(lines) ==> Collect(lines)[k] == Concat(Pick(lines, Owners(lines), k))
  {
    CollectFromAt("", map[], lines, k);
  }

  // ---------------------------------------------------------------------
  // Key order

  /** The keys in first-seen order, as PHP's array keeps them. */
  function Distinct(xs: seq<string>): (r: seq<string>)
    ensures forall x :: x in r <==> x in xs
    ensures forall i, j :: 0 <= i < j < |r| ==> r[i] != r[j]
    decreases |xs|
  {
    if xs == [] then []
    else
      var rest := Distinct(xs[..|xs| - 1]);
      assert forall x :: x in xs <==> x in xs[..|xs| - 1] || x == xs[|xs| - 1] by {
        assert xs == xs[..|xs| - 1] + [xs[|xs| - 1]];
      }
      if xs[|xs| - 1] in rest then rest else rest + [xs[|xs| - 1]]
  }

  /** The group keys after `ksort`. */
  function Keys(lines: seq<string>): (ks: seq<string>)
    ensures Sorted(ks)
    ensures forall k :: k in ks <==> k in Owners(lines)
  {
    var d := Distinct(Owners(lines));
    var ks := Sort(d);
    assert forall k :: k in ks <==> k in multiset(d);
    ks
  }

  lemma {:induction false} DistinctMultiset(d: seq<string>)
    requires forall i, j :: 0 <= i < j < |d| ==> d[i] != d[j]
    ensures forall x :: multiset(d)[x] == if x in d then 1 else 0
    decreases |d|
  {
    if d != [] {
      var rest := d[..|d| - 1];
      assert d == rest + [d[|d| - 1]];
      DistinctMultiset(rest);
      assert d[|d| - 1] !in rest;
    }
  }

  lemma RepeatCounts(s: seq<string>, i: nat, j: nat)
    requires i < j < |s| && s[i] == s[j]
    ensures multiset(s)[s[i]] >= 2
  {
    assert s == s[..j] + [s[j]] + s[j + 1..];
    assert s[i] in s[..j];
  }

  /** The sorted keys are strictly ascending. */
  lemma KeysStrictlySorted(lines: seq<string>)
    ensures StrictlySorted(Keys(lines))
  {
    var d := Distinct(Owners(lines));
    var ks := Keys(lines);
    DistinctMultiset(d);
    assert multiset(ks) == multiset(d);
    forall i, j | 0 <= i < j < |ks| ensures ks[i] != ks[j] {
      if ks[i] == ks[j] {
        RepeatCounts(ks, i, j);
      }
    }
  }

  /** The order of the keys depends only on which keys there are. */
  lemma KeysBySet(a: seq<string>, b: seq<string>)
    requires forall k :: k in Owners(a) <==> k in Owners(b)
    ensures Keys(a) == Keys(b)
  {
    SortDistinctBySet(Owners(a), Owners(b));
  }

  /** Sorting the distinct elements sees only which elements there are. */
  lemma SortDistinctBySet(a: seq<string>, b: seq<string>)
    requires forall k :: k in a <==> k in b
    ensures Sort(Distinct(a)) == Sort(Distinct(b))
  {
    var da, db := Distinct(a), Distinct(b);
    assert multiset(da) == multiset(db) by {
      DistinctMultiset(da);
      DistinctMultiset(db);
      forall x ensures multiset(da)[x] == multiset(db)[x] {
        assert x in da <==> x in db;
      }
    }
    SortedUnique(Sort(da), Sort(db));
  }

  /** Lines before the first identifier form the "" group, and it comes first. */
  lemma EmptyKeyFirst(lines: seq<string>)
    requires "" in Owners(lines)
    ensures Keys(lines) != [] && Keys(lines)[0] == ""
  {
    var ks := Keys(lines);
    KeysStrictlySorted(lines);
    var i :| 0 <= i < |ks| && ks[i] == "";
  }

  // ---------------------------------------------------------------------
  // The regrouped section

  /** The group texts in key order: what `implode('', $aSections)` joins
      before the generator line is appended. */
  function GroupTexts(m: map<string, string>, ks: seq<string>): seq<string>
    requires forall i :: 0 <= i < |ks| ==> ks[i] in m
    decreases |ks|
  {
    if ks == [] then [] else [m[ks[0]]] + GroupTexts(m, ks[1..])
  }

  function Groups(lines: seq<string>): seq<string> {
    var ks := Keys(lines);
    forall i | 0 <= i < |ks| ensures ks[i] in Collect(lines) {
      CollectAt(lines, ks[i]);
    }
    GroupTexts(Collect(lines), ks)
  }

  /** The lines of each group, in key order, as a flat list. */
  function Regroup(lines: seq<string>, owners: seq<string>, ks: seq<string>): seq<string>
    requires |lines| == |owners|
    decreases |ks|
  {
    if ks == [] then [] else Pick(lines, owners, ks[0]) + Regroup(lines, owners, ks[1..])
  }

  /** The section's lines in the order the rewritten file holds them. */
  function Regrouped(lines: seq<string>): seq<string> {
    Regroup(lines, Owners(lines), Keys(lines))
  }

  // ---------------------------------------------------------------------
  // What each group holds

  /** Every identifier line in a group names the group's key. */
  lemma PickOnlyNames(lines: seq<string>, k: string)
    ensures OnlyNames(Pick(lines, Owners(lines), k), k)
  {
    var owners := Owners(lines);
    var p := Pick(lines, owners, k);
    forall j | 0 <= j < |p| && IdentifierOf(p[j]).Some?
      ensures IdentifierOf(p[j]).value == k
    {
      PickMembers(lines, owners, k, j);
      var i :| 0 <= i < |lines| && owners[i] == k && lines[i] == p[j];
      IdentifierLineOwner("", lines, i);
    }
  }

  /** The index of the first `k` in `xs`. */
  function FirstIndex(xs: seq<string>, k: string): (i: nat)
    requires k in xs
    ensures i < |xs| && xs[i] == k
    ensures forall j :: 0 <= j < i ==> xs[j] != k
  {
    if xs[0] == k then 0 else 1 + FirstIndex(xs[1..], k)
  }

  /** A group other than the "" group is not empty and starts with the
      line that names its key. */
  lemma PickStartsNamed(lines: seq<string>, k: string)
    requires k in Owners(lines)
    ensures Pick(lines, Owners(lines), k) != []
    ensures k != "" ==> IdentifierOf(Pick(lines, Owners(lines), k)[0]) == Some(k)
  {
    var owners := Owners(lines);
    var i := FirstIndex(owners, k);
    PickFirst(lines, owners, k, i);
    OwnerStep("", lines, i);
  }

  /** The key each line of `Regroup` is filed under when it is read again. */
  function Tags(lines: seq<string>, owners: seq<string>, ks: seq<string>): (r: seq<string>)
    requires |lines| == |owners|
    ensures |r| == |Regroup(lines, owners, ks)|
    decreases |ks|
  {
    if ks == [] then [] else Copies(ks[0], |Pick(lines, owners, ks[0])|) + Tags(lines, owners, ks[1..])
  }

  /** Reading the regrouped lines files each group under its own key again. */
  lemma {:induction false} OwnersOfRegroup(key: string, lines: seq<string>, ks: seq<string>)
    requires forall i :: 0 <= i < |ks| ==> ks[i] in Owners(lines)
    requires forall i :: 0 <= i < |ks| && ks[i] == "" ==> i == 0 && key == ""
    ensures OwnersFrom(key, Regroup(lines, Owners(lines), ks)) == Tags(lines, Owners(lines), ks)
    decreases |ks|
  {
    if ks != [] {
      var owners := Owners(lines);
      var p := Pick(lines, owners, ks[0]);
      PickOnlyNames(lines, ks[0]);
      PickStartsNamed(lines, ks[0]);
      OwnersNamed(key, p, ks[0]);
      OwnersAppend(key, p, Regroup(lines, owners, ks[1..]));
      OwnersOfRegroup(ks[0], lines, ks[1..]);
    }
  }

  lemma {:induction false} PickTags(lines: seq<string>, owners: seq<string>, ks: seq<string>, k: string)
    requires |lines| == |owners|
    requires forall i, j :: 0 <= i < j < |ks| ==> ks[i] != ks[j]
    ensures Pick(Regroup(lines, owners, ks), Tags(lines, owners, ks), k)
            == if k in ks then Pick(lines, owners, k) else []
    decreases |ks|
  {
    if ks != [] {
      var p := Pick(lines, owners, ks[0]);
      PickAppend(p, Copies(ks[0], |p|), Regroup(lines, owners, ks[1..]), Tags(lines, owners, ks[1..]), k);
      PickUniform(p, ks[0], k);
      PickTags(lines, owners, ks[1..], k);
      assert k in ks <==> k == ks[0] || k in ks[1..];
      if k == ks[0] {
        assert k !in ks[1..];
      }
    }
  }

  lemma {:induction false} TagsCover(lines: seq<string>, ks: seq<string>, k: string)
    requires forall i :: 0 <= i < |ks| ==> ks[i] in Owners(lines)
    ensures k in Tags(lines, Owners(lines), ks) <==> k in ks
    decreases |ks|
  {
    if ks != [] {
      PickStartsNamed(lines, ks[0]);
      TagsCover(lines, ks[1..], k);
      var c := Copies(ks[0], |Pick(lines, Owners(lines), ks[0])|);
      assert c[0] == ks[0];
      assert k in c <==> k == ks[0];
    }
  }

  lemma {:induction false} GroupTextsEqual(m1: map<string, string>, m2: map<string, string>, ks: seq<string>)
    requires forall i :: 0 <= i < |ks| ==> ks[i] in m1 && ks[i] in m2 && m1[ks[i]] == m2[ks[i]]
    ensures GroupTexts(m1, ks) == GroupTexts(m2, ks)
    decreases |ks|
  {
    if ks != [] {
      GroupTextsEqual(m1, m2, ks[1..]);
    }
  }

  lemma {:induction false} RegroupEqual(a: seq<string>, oa: seq<string>, b: seq<string>, ob: seq<string>, ks: seq<string>)
    requires |a| == |oa| && |b| == |ob|
    requires forall i :: 0 <= i < |ks| ==> Pick(a, oa, ks[i]) == Pick(b, ob, ks[i])
    ensures Regroup(a, oa, ks) == Regroup(b, ob, ks)
    decreases |ks|
  {
    if ks != [] {
      RegroupEqual(a, oa, b, ob, ks[1..]);
    }
  }

  /** Regrouping an already regrouped section changes nothing: the keys,
      the group texts and the line order all come back the same. */
  lemma RegroupedIsStable(lines: seq<string>)
    ensures Keys(Regrouped(lines)) == Keys(lines)
    ensures Groups(Regrouped(lines)) == Groups(lines)
    ensures Regrouped(Regrouped(lines)) == Regrouped(lines)
  {
    var owners := Owners(lines);
    var ks := Keys(lines);
    var again := Regrouped(lines);
    KeysStrictlySorted(lines);
    forall i | 0 <= i < |ks| && ks[i] == "" ensures i == 0 {
      EmptyKeyFirst(lines);
    }
    OwnersOfRegroup("", lines, ks);
    var tags := Tags(lines, owners, ks);
    assert Owners(again) == tags;
    forall k ensures k in Owners(again) <==> k in Owners(lines) {
      TagsCover(lines, ks, k);
    }
    KeysBySet(again, lines);
    forall k | k in ks ensures Pick(again, tags, k) == Pick(lines, owners, k) {
      PickTags(lines, owners, ks, k);
    }
    forall i | 0 <= i < |ks|
      ensures ks[i] in Collect(again) && ks[i] in Collect(lines)
      ensures Collect(again)[ks[i]] == Collect(lines)[ks[i]]
    {
      CollectAt(again, ks[i]);
      CollectAt(lines, ks[i]);
    }
    GroupTextsEqual(Collect(again), Collect(lines), ks);
    RegroupEqual(again, tags, lines, owners, ks);
  }

  /** The group texts glued together are the regrouped lines glued together. */
  lemma {:induction false} GroupTextsConcat(lines: seq<string>, ks: seq<string>)
    requires forall i :: 0 <= i < |ks| ==> ks[i] in Owners(lines)
    ensures forall i :: 0 <= i < |ks| ==> ks[i] in Collect(lines)
    ensures Concat(GroupTexts(Collect(lines), ks)) == Concat(Regroup(lines, Owners(lines), ks))
    decreases |ks|
  {
    forall i | 0 <= i < |ks| ensures ks[i] in Collect(lines) {
      CollectAt(lines, ks[i]);
    }
    if ks != [] {
      GroupTextsConcat(lines, ks[1..]);
      CollectAt(lines, ks[0]);
      var p := Pick(lines, Owners(lines), ks[0]);
      ConcatAppend(p, Regroup(lines, Owners(lines), ks[1..]));
    }
  }

  lemma GroupsConcat(lines: seq<string>)
    ensures Concat(Groups(lines)) == Concat(Regrouped(lines))
  {
    GroupTextsConcat(lines, Keys(lines));
  }

  // ---------------------------------------------------------------------
  // Nothing is lost or duplicated

  /** The lines filed under any key of `keys`, in order. */
  function PickAny(lines: seq<string>, owners: seq<string>, keys: set<string>): seq<string>
    requires |lines| == |owners|
    decreases |lines|
  {
    if lines == [] then []
    else (if owners[0] in keys then [lines[0]] else []) + PickAny(lines[1..], owners[1..], keys)
  }

  lemma {:induction false} PickAnySplit(lines: seq<string>, owners: seq<string>, k: string, rest: set<string>)
    requires |lines| == |owners| && k !in rest
    ensures multiset(PickAny(lines, owners, {k} + rest))
            == multiset(Pick(lines, owners, k)) + multiset(PickAny(lines, owners, rest))
    decreases |lines|
  {
    if lines != [] {
      PickAnySplit(lines[1..], owners[1..], k, rest);
    }
  }

  lemma {:induction false} RegroupPermutes(lines: seq<string>, owners: seq<string>, ks: seq<string>)
    requires |lines| == |owners|
    requires forall i, j :: 0 <= i < j < |ks| ==> ks[i] != ks[j]
    ensures multiset(Regroup(lines, owners, ks)) == multiset(PickAny(lines, owners, set k | k in ks))
    decreases |ks|
  {
    if ks == [] {
      assert (set k | k in ks) == {};
      PickNone(lines, owners);
    } else {
      RegroupPermutes(lines, owners, ks[1..]);
      assert (set k | k in ks) == {ks[0]} + (set k | k in ks[1..]);
      PickAnySplit(lines, owners, ks[0], set k | k in ks[1..]);
    }
  }

  lemma {:induction false} PickNone(lines: seq<string>, owners: seq<string>)
    requires |lines| == |owners|
    ensures PickAny(lines, owners, {}) == []
    decreases |lines|
  {
    if lines != [] {
      PickNone(lines[1..], owners[1..]);
    }
  }

  lemma {:induction false} PickEvery(lines: seq<string>, owners: seq<string>, keys: set<string>)
    requires |lines| == |owners|
    requires forall i :: 0 <= i < |owners| ==> owners[i] in keys
    ensures PickAny(lines, owners, keys) == lines
    decreases |lines|
  {
    if lines != [] {
      PickEvery(lines[1..], owners[1..], keys);
    }
  }

  /** Regrouping only reorders: every line of the section lands in exactly one group. */
  lemma RegroupedPermutes(lines: seq<string>)
    ensures multiset(Regrouped(lines)) == multiset(lines)
  {
    var ks := Keys(lines);
    KeysStrictlySorted(lines);
    RegroupPermutes(lines, Owners(lines), ks);
    PickEvery(lines, Owners(lines), set k | k in ks);
  }
}
