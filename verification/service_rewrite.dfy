/** The end of `BaseMaker::writeServiceFile`: each section is regrouped,
    closed with a fresh generator line, and spliced into the top level in
    place of its placeholder; the top level, glued together, is the new
    services file. */
module ServiceRewrite {
  import opened Text
  import opened Lines
  import opened Results
  import opened Maker
  import opened ServiceToken
  import opened ServiceLayout
  import opened ServiceGroups

  /** The generator line written at the end of a section: two tabs, the
      comment naming the section's placeholder (not the token that was
      searched for), and a newline. */
  function GeneratorLine(s: Section): (r: string)
    ensures Terminated(r)
  {
    Tabs(2) + TokenComment(Slot(s)) + "\n"
  }

  /** `$aSections` after `ksort` and the appended generator line: one text
      per identifier, in key order, which glued together are the section's
      lines regrouped, and then the section's own generator line. */
  function Normalize(body: seq<string>, s: Section): (r: seq<string>)
    ensures |r| == |Keys(body)| + 1
    ensures r[|r| - 1] == GeneratorLine(s)
    ensures Concat(r) == Concat(Regrouped(body)) + GeneratorLine(s)
  {
    var groups := Groups(body);
    GroupsCount(body);
    GroupsConcat(body);
    ConcatAppend(groups, [GeneratorLine(s)]);
    groups + [GeneratorLine(s)]
  }

  lemma GroupsCount(body: seq<string>)
    ensures |Groups(body)| == |Keys(body)|
  {
    var ks := Keys(body);
    forall i | 0 <= i < |ks| ensures ks[i] in Collect(body) {
      CollectAt(body, ks[i]);
    }
    GroupTextsCount(Collect(body), ks);
  }

  lemma {:induction false} GroupTextsCount(m: map<string, string>, ks: seq<string>)
    requires forall i :: 0 <= i < |ks| ==> ks[i] in m
    ensures |GroupTexts(m, ks)| == |ks|
    decreases |ks|
  {
    if ks != [] {
      GroupTextsCount(m, ks[1..]);
    }
  }

  /** `array_search`: the first index holding `x`, if any. */
  function IndexOf(xs: seq<string>, x: string): (r: Option<nat>)
    ensures r.Some? ==> r.value < |xs| && xs[r.value] == x && x !in xs[..r.value]
    ensures r.None? ==> x !in xs
  {
    if xs == [] then None
    else if xs[0] == x then Some(0)
    else match IndexOf(xs[1..], x)
      case None => None
      case Some(i) =>
        assert xs[..i + 1] == [xs[0]] + xs[1..][..i];
        Some(i + 1)
  }

  /** `array_splice($aFile, array_search($sToken, $aFile), 1, $aSections)`.
      A missing placeholder makes `array_search` return false, which
      `array_splice` reads as offset 0: the first element is replaced. */
  function Place(file: seq<string>, s: Section, groups: seq<string>): seq<string> {
    var at := match IndexOf(file, Slot(s)) case Some(i) => i case None => 0;
    if at < |file| then file[..at] + groups + file[at + 1..] else file + groups
  }

  /** The four splices, in the order of `$aMap`. */
  function Assemble(b: Buckets): seq<string> {
    var f1 := Place(b.top, Services, Normalize(b.services, Services));
    var f2 := Place(f1, Models, Normalize(b.models, Models));
    var f3 := Place(f2, Factories, Normalize(b.factories, Factories));
    Place(f3, Resources, Normalize(b.resources, Resources))
  }

  /** `writeServiceFile`, given the anchor `validateServiceFile` found: the
      text the services file is replaced with. */
  function Rewrite(text: string, a: Anchor, defs: seq<string>): string {
    Concat(Assemble(Distribute(SplitLines(Splice(text, a, defs)))))
  }

  /** Validation followed by the rewrite. An error leaves the file as it was. */
  function Generate(given: string, fallback: string, file: Option<string>, defs: seq<string>)
    : (r: Result<string, Error>)
    requires ResolveToken(given, fallback).Ok? ==> IsLiteralToken(ResolveToken(given, fallback).value)
    ensures r.Err? <==>
              || (Falsy(given) && Falsy(fallback))
              || file.None?
              || forall j :: 0 <= j < |SplitLines(file.value)| ==>
                   !MarksToken(SplitLines(file.value)[j], ResolveToken(given, fallback).value)
    ensures r.Err? ==> r.error == Locate(given, fallback, file).error
    ensures r.Ok? ==> file.Some? && Locate(given, fallback, file).Ok?
                      && r.value == Rewrite(file.value, Locate(given, fallback, file).value, defs)
  {
    match Locate(given, fallback, file)
    case Err(e) => Err(e)
    case Ok(a) => Ok(Rewrite(file.value, a, defs))
  }

  // ---------------------------------------------------------------------
  // Reference: placeholders expanded

  /** The section whose placeholder `x` is, if it is one. */
  function SlotOf(x: string): (r: Option<Section>)
    ensures r.Some? ==> x == Slot(r.value)
    ensures r.None? ==> forall s :: x != Slot(s)
  {
    if x == Slot(Services) then Some(Services)
    else if x == Slot(Models) then Some(Models)
    else if x == Slot(Factories) then Some(Factories)
    else if x == Slot(Resources) then Some(Resources)
    else None
  }

  /** The regrouped sections, each in its bucket. */
  function Normalized(b: Buckets): Buckets {
    Buckets(b.top, Normalize(b.services, Services), Normalize(b.models, Models),
            Normalize(b.factories, Factories), Normalize(b.resources, Resources))
  }

  /** The top level with every placeholder replaced by its section's lines:
      what the file is meant to become. */
  function Expand(xs: seq<string>, fills: Buckets): seq<string>
    decreases |xs|
  {
    if xs == [] then []
    else
      (match SlotOf(xs[0]) case Some(s) => fills.Of(Within(s)) case None => [xs[0]])
      + Expand(xs[1..], fills)
  }

  /** Every occurrence of one placeholder replaced. */
  function Fill(xs: seq<string>, s: Section, g: seq<string>): seq<string>
    decreases |xs|
  {
    if xs == [] then [] else (if xs[0] == Slot(s) then g else [xs[0]]) + Fill(xs[1..], s, g)
  }

  lemma {:induction false} FillAppend(a: seq<string>, b: seq<string>, s: Section, g: seq<string>)
    ensures Fill(a + b, s, g) == Fill(a, s, g) + Fill(b, s, g)
    decreases |a|
  {
    if a == [] {
      assert a + b == b;
    } else {
      assert (a + b)[1..] == a[1..] + b;
      FillAppend(a[1..], b, s, g);
    }
  }

  lemma {:induction false} FillAbsent(xs: seq<string>, s: Section, g: seq<string>)
    requires Slot(s) !in xs
    ensures Fill(xs, s, g) == xs
    decreases |xs|
  {
    if xs != [] {
      FillAbsent(xs[1..], s, g);
    }
  }

  /** Filling one placeholder leaves the count of another alone. */
  lemma {:induction false} FillCount(xs: seq<string>, s: Section, g: seq<string>, t: Section)
    requires t != s && Slot(t) !in g
    ensures multiset(Fill(xs, s, g))[Slot(t)] == multiset(xs)[Slot(t)]
    decreases |xs|
  {
    if xs != [] {
      FillCount(xs[1..], s, g, t);
      SlotsDiffer(s, t);
      var head := if xs[0] == Slot(s) then g else [xs[0]];
      assert multiset(head)[Slot(t)] == multiset([xs[0]])[Slot(t)];
      assert Fill(xs, s, g) == head + Fill(xs[1..], s, g);
      CountAppend(head, Fill(xs[1..], s, g), Slot(t));
      assert xs == [xs[0]] + xs[1..];
      CountAppend([xs[0]], xs[1..], Slot(t));
    }
  }

  /** Distinct sections have distinct placeholders. */
  lemma SlotsDiffer(s: Section, t: Section)
    requires s != t
    ensures Slot(s) != Slot(t)
  {
    assert Slot(s)[0] != Slot(t)[0];
  }

  lemma CountAppend(a: seq<string>, b: seq<string>, v: string)
    ensures multiset(a + b)[v] == multiset(a)[v] + multiset(b)[v]
  {
  }

  /** Splicing at the only occurrence of a placeholder is filling it. */
  lemma PlaceFills(xs: seq<string>, s: Section, g: seq<string>)
    requires multiset(xs)[Slot(s)] == 1
    ensures Place(xs, s, g) == Fill(xs, s, g)
  {
    var i := IndexOf(xs, Slot(s)).value;
    OnlyOccurrence(xs, Slot(s), i);
    FillAt(xs, i, s, g);
  }

  /** An element that occurs once is absent on both sides of its index. */
  lemma OnlyOccurrence(xs: seq<string>, x: string, i: nat)
    requires multiset(xs)[x] == 1 && i < |xs| && xs[i] == x
    ensures x !in xs[i + 1..]
  {
    assert xs == xs[..i] + [xs[i]] + xs[i + 1..];
    assert multiset(xs) == multiset(xs[..i]) + multiset{xs[i]} + multiset(xs[i + 1..]);
  }

  /** Filling a list whose only placeholders up to `i` sit at `i` and none
      comes after. */
  lemma FillAt(xs: seq<string>, i: nat, s: Section, g: seq<string>)
    requires i < |xs| && xs[i] == Slot(s)
    requires Slot(s) !in xs[..i] && Slot(s) !in xs[i + 1..]
    ensures Fill(xs, s, g) == xs[..i] + g + xs[i + 1..]
  {
    assert xs == xs[..i] + [xs[i]] + xs[i + 1..];
    FillAppend(xs[..i] + [xs[i]], xs[i + 1..], s, g);
    FillAppend(xs[..i], [xs[i]], s, g);
    FillSingle(xs[i], s, g);
    FillAbsent(xs[..i], s, g);
    FillAbsent(xs[i + 1..], s, g);
  }

  /** No element is a placeholder. */
  predicate SlotFree(xs: seq<string>) {
    forall i :: 0 <= i < |xs| ==> SlotOf(xs[i]).None?
  }

  function FillAll(xs: seq<string>, fills: Buckets): seq<string> {
    Fill(Fill(Fill(Fill(xs, Services, fills.services), Models, fills.models),
              Factories, fills.factories), Resources, fills.resources)
  }

  predicate FillsSlotFree(fills: Buckets) {
    SlotFree(fills.services) && SlotFree(fills.models) && SlotFree(fills.factories) && SlotFree(fills.resources)
  }

  lemma SlotFreeAbsent(xs: seq<string>, s: Section)
    requires SlotFree(xs)
    ensures Slot(s) !in xs
  {
  }

  lemma {:induction false} FillAllIsExpand(xs: seq<string>, fills: Buckets)
    requires FillsSlotFree(fills)
    ensures FillAll(xs, fills) == Expand(xs, fills)
    decreases |xs|
  {
    if xs != [] {
      FillAllIsExpand(xs[1..], fills);
      var x := [xs[0]];
      assert xs == x + xs[1..];
      FillAppend(x, xs[1..], Services, fills.services);
      FillAppend(Fill(x, Services, fills.services), Fill(xs[1..], Services, fills.services), Models, fills.models);
      var y1 := Fill(Fill(x, Services, fills.services), Models, fills.models);
      var z1 := Fill(Fill(xs[1..], Services, fills.services), Models, fills.models);
      FillAppend(y1, z1, Factories, fills.factories);
      FillAppend(Fill(y1, Factories, fills.factories), Fill(z1, Factories, fills.factories), Resources, fills.resources);
      FillOne(xs[0], fills);
    }
  }

  lemma FillSingle(x: string, s: Section, g: seq<string>)
    ensures Fill([x], s, g) == if x == Slot(s) then g else [x]
  {
    assert [x][1..] == [];
  }

  lemma FillOne(x: string, fills: Buckets)
    requires FillsSlotFree(fills)
    ensures FillAll([x], fills) == match SlotOf(x) case Some(s) => fills.Of(Within(s)) case None => [x]
  {
    SlotFreeAbsent(fills.services, Models);
    SlotFreeAbsent(fills.services, Factories);
    SlotFreeAbsent(fills.services, Resources);
    SlotFreeAbsent(fills.models, Factories);
    SlotFreeAbsent(fills.models, Resources);
    SlotFreeAbsent(fills.factories, Resources);
    FillSingle(x, Services, fills.services);
    FillSingle(x, Models, fills.models);
    FillSingle(x, Factories, fills.factories);
    FillSingle(x, Resources, fills.resources);
    FillAbsent(fills.services, Models, fills.models);
    FillAbsent(fills.services, Factories, fills.factories);
    FillAbsent(fills.services, Resources, fills.resources);
    FillAbsent(fills.models, Factories, fills.factories);
    FillAbsent(fills.models, Resources, fills.resources);
    FillAbsent(fills.factories, Resources, fills.resources);
  }

  /** With each placeholder once in the top level and no placeholder among
      the sections' lines, the four splices expand every placeholder into its
      regrouped section and leave every other top-level line in order. */
  lemma AssembleExpands(b: Buckets)
    requires forall s :: multiset(b.top)[Slot(s)] == 1
    requires FillsSlotFree(Normalized(b))
    ensures Assemble(b) == Expand(b.top, Normalized(b))
  {
    var n := Normalized(b);
    SlotFreeAbsent(n.services, Models);
    SlotFreeAbsent(n.services, Factories);
    SlotFreeAbsent(n.services, Resources);
    SlotFreeAbsent(n.models, Factories);
    SlotFreeAbsent(n.models, Resources);
    SlotFreeAbsent(n.factories, Resources);
    var f1 := Fill(b.top, Services, n.services);
    PlaceFills(b.top, Services, n.services);
    FillCount(b.top, Services, n.services, Models);
    FillCount(b.top, Services, n.services, Factories);
    FillCount(b.top, Services, n.services, Resources);
    var f2 := Fill(f1, Models, n.models);
    PlaceFills(f1, Models, n.models);
    FillCount(f1, Models, n.models, Factories);
    FillCount(f1, Models, n.models, Resources);
    var f3 := Fill(f2, Factories, n.factories);
    PlaceFills(f2, Factories, n.factories);
    FillCount(f2, Factories, n.factories, Resources);
    PlaceFills(f3, Resources, n.resources);
    FillAllIsExpand(b.top, n);
  }

  // ---------------------------------------------------------------------
  // The whole rewrite on a well-nested file

  predicate AllTerminated(xs: seq<string>) {
    forall i :: 0 <= i < |xs| ==> Terminated(xs[i])
  }

  /** How many blocks open the section. */
  function BlockCount(cs: seq<Chunk>, s: Section): nat
    decreases |cs|
  {
    if cs == [] then 0
    else (if cs[0].Block? && cs[0].section == s then 1 else 0) + BlockCount(cs[1..], s)
  }

  /** A line read from the file ends in a newline, so it is no placeholder. */
  lemma TerminatedIsNoSlot(x: string)
    requires Terminated(x)
    ensures SlotOf(x).None?
  {
    forall s ensures x != Slot(s) {
      assert Slot(s)[|Slot(s)| - 1] != '\n';
    }
  }

  lemma {:induction false} KeepSubset(ls: seq<string>, x: string)
    requires x in Keep(ls)
    ensures x in ls
    decreases |ls|
  {
    if x != ls[0] {
      KeepSubset(ls[1..], x);
    }
  }

  lemma {:induction false} KeepTerminated(ls: seq<string>)
    requires AllTerminated(ls)
    ensures AllTerminated(Keep(ls))
  {
    forall i | 0 <= i < |Keep(ls)| ensures Terminated(Keep(ls)[i]) {
      KeepSubset(ls, Keep(ls)[i]);
    }
  }

  lemma RenderSplit(cs: seq<Chunk>)
    requires cs != []
    ensures Render(cs) == ChunkLines(cs[0]) + Render(cs[1..])
  {
  }

  lemma TopOfCons(cs: seq<Chunk>)
    requires cs != []
    ensures TopOf(cs) == TopOf([cs[0]]) + TopOf(cs[1..])
  {
    assert [cs[0]][1..] == [];
  }

  /** A top-level run has no line that is a bare placeholder word. */
  predicate NoBareSlot(c: Chunk) {
    c.Plain? ==> forall j :: 0 <= j < |c.lines| ==> SlotOf(c.lines[j]).None?
  }

  /** One chunk's share of the top level holds a placeholder only if it is a block. */
  lemma {:induction false} ChunkSlots(c: Chunk, s: Section)
    requires Parsable(c) && NoBareSlot(c)
    ensures multiset(TopOf([c]))[Slot(s)] == if c.Block? && c.section == s then 1 else 0
  {
    TopOfSingle(c);
    match c
    case Plain(ls) =>
      KeepSlotFree(ls);
      NoSlotCount(Keep(ls), s);
    case Block(t, o, bd, cl) =>
      IndentedIsNoSlot(o, Opener(t));
      IndentedIsNoSlot(cl, Tabs(1) + "],");
      BlockSlots(t, o, cl, s);
  }

  lemma {:induction false} TopOfSingle(c: Chunk)
    ensures TopOf([c]) == match c
                          case Plain(ls) => Keep(ls)
                          case Block(t, o, _, cl) => [o] + [Slot(t)] + Keep([cl])
  {
    assert [c][1..] == [];
  }

  /** Openers and closers start with a space, and no placeholder does. */
  lemma IndentedIsNoSlot(line: string, lead: string)
    requires StartsWith(line, lead) && lead != "" && lead[0] == ' '
    ensures SlotOf(line).None?
  {
    forall s ensures line != Slot(s) {
      assert line[0] == ' ';
      assert Slot(s)[0] != ' ';
    }
  }

  lemma {:induction false} KeepSlotFree(ls: seq<string>)
    requires forall j :: 0 <= j < |ls| ==> SlotOf(ls[j]).None?
    ensures forall j :: 0 <= j < |Keep(ls)| ==> SlotOf(Keep(ls)[j]).None?
  {
    forall j | 0 <= j < |Keep(ls)| ensures SlotOf(Keep(ls)[j]).None? {
      KeepSubset(ls, Keep(ls)[j]);
    }
  }

  /** The top-level share of a block: its opener, its placeholder and its kept closer. */
  lemma {:induction false} BlockSlots(t: Section, o: string, cl: string, s: Section)
    requires SlotOf(o).None? && SlotOf(cl).None?
    ensures multiset([o] + [Slot(t)] + Keep([cl]))[Slot(s)] == if t == s then 1 else 0
  {
    KeepSlotFree([cl]);
    NoSlotCount(Keep([cl]), s);
    assert multiset([o] + [Slot(t)] + Keep([cl])) == multiset([o]) + multiset([Slot(t)]) + multiset(Keep([cl]));
  }

  /** Each block leaves exactly one placeholder for its section in the top level. */
  lemma {:induction false} TopOfSlots(cs: seq<Chunk>, s: Section)
    requires forall i :: 0 <= i < |cs| ==> Parsable(cs[i]) && NoBareSlot(cs[i])
    ensures multiset(TopOf(cs))[Slot(s)] == BlockCount(cs, s)
    decreases |cs|
  {
    if cs != [] {
      assert forall i :: 0 <= i < |cs[1..]| ==> cs[1..][i] == cs[i + 1];
      TopOfSlots(cs[1..], s);
      ChunkSlots(cs[0], s);
      TopOfCons(cs);
    }
  }

  lemma NoSlotCount(xs: seq<string>, s: Section)
    requires forall j :: 0 <= j < |xs| ==> SlotOf(xs[j]).None?
    ensures multiset(xs)[Slot(s)] == 0
  {
    assert Slot(s) !in xs;
  }

  /** A section's lines are read before its closer, so each ends in a newline. */
  lemma {:induction false} BodyOfTerminated(cs: seq<Chunk>, s: Section)
    requires forall i :: 0 <= i < |cs| ==> Parsable(cs[i])
    requires WellFormed(Render(cs))
    ensures AllTerminated(BodyOf(cs, s))
    decreases |cs|
  {
    if cs != [] {
      RenderSplit(cs);
      WellFormedSuffix(ChunkLines(cs[0]), Render(cs[1..]));
      assert forall i :: 0 <= i < |cs[1..]| ==> cs[1..][i] == cs[i + 1];
      BodyOfTerminated(cs[1..], s);
      match cs[0]
      case Plain(_) =>
      case Block(t, o, bd, cl) =>
        BodyBeforeCloser(o, bd, cl, Render(cs[1..]));
        KeepTerminated(bd);
    }
  }

  lemma WellFormedSuffix(a: seq<string>, b: seq<string>)
    requires WellFormed(a + b)
    ensures WellFormed(b)
  {
    forall i | 0 <= i < |b| ensures b[i] == (a + b)[|a| + i] {
    }
  }

  /** Every line before the closer has a line after it. */
  lemma BodyBeforeCloser(o: string, bd: seq<string>, cl: string, rest: seq<string>)
    requires WellFormed([o] + bd + [cl] + rest)
    ensures AllTerminated(bd)
  {
    var all := [o] + bd + [cl] + rest;
    forall i | 0 <= i < |bd| ensures Terminated(bd[i]) {
      assert bd[i] == all[i + 1];
    }
  }

  lemma {:induction false} ConcatTerminated(xs: seq<string>)
    requires xs != [] && AllTerminated(xs)
    ensures Terminated(Concat(xs))
    decreases |xs|
  {
    if |xs| > 1 {
      ConcatTerminated(xs[1..]);
    } else {
      assert Concat(xs) == xs[0] + "";
    }
  }

  lemma {:induction false} GroupTextsAt(m: map<string, string>, ks: seq<string>, i: nat)
    requires forall j :: 0 <= j < |ks| ==> ks[j] in m
    requires i < |ks|
    ensures |GroupTexts(m, ks)| == |ks| && GroupTexts(m, ks)[i] == m[ks[i]]
    decreases i
  {
    if i > 0 {
      GroupTextsAt(m, ks[1..], i - 1);
    } else {
      GroupTextsLength(m, ks);
    }
  }

  lemma {:induction false} GroupTextsLength(m: map<string, string>, ks: seq<string>)
    requires forall j :: 0 <= j < |ks| ==> ks[j] in m
    ensures |GroupTexts(m, ks)| == |ks|
    decreases |ks|
  {
    if ks != [] {
      GroupTextsLength(m, ks[1..]);
    }
  }

  /** Every group text of terminated lines is itself terminated. */
  lemma GroupsTerminated(lines: seq<string>)
    requires AllTerminated(lines)
    ensures AllTerminated(Groups(lines))
  {
    var ks := Keys(lines);
    var m := Collect(lines);
    forall i | 0 <= i < |ks| ensures ks[i] in m {
      CollectAt(lines, ks[i]);
    }
    GroupTextsLength(m, ks);
    forall i | 0 <= i < |ks| ensures Terminated(Groups(lines)[i]) {
      GroupTextsAt(m, ks, i);
      CollectAt(lines, ks[i]);
      var p := Pick(lines, Owners(lines), ks[i]);
      PickStartsNamed(lines, ks[i]);
      forall j | 0 <= j < |p| ensures Terminated(p[j]) {
        PickMembers(lines, Owners(lines), ks[i], j);
      }
      ConcatTerminated(p);
    }
  }

  lemma NormalizeSlotFree(body: seq<string>, s: Section)
    requires AllTerminated(body)
    ensures SlotFree(Normalize(body, s))
  {
    GroupsTerminated(body);
    var r := Normalize(body, s);
    forall i | 0 <= i < |r| ensures SlotOf(r[i]).None? {
      if i < |r| - 1 {
        assert r[i] == Groups(body)[i];
      }
      TerminatedIsNoSlot(r[i]);
    }
  }

  /** On a well-nested file that ends in a newline and opens each section
      once, the new services file is the top level with each placeholder
      replaced by its section's groups in key order and one fresh generator
      line; every other top-level line keeps its place. */
  lemma RewriteShape(text: string, a: Anchor, defs: seq<string>, cs: seq<Chunk>)
    requires Render(cs) == SplitLines(Splice(text, a, defs))
    requires forall i :: 0 <= i < |cs| ==> Parsable(cs[i])
    requires forall s :: BlockCount(cs, s) == 1
    requires forall i :: 0 <= i < |cs| ==> NoBareSlot(cs[i])
    ensures Rewrite(text, a, defs) == Concat(Expand(TopOf(cs), Normalized(Layout(cs))))
  {
    SplitLinesSound(Splice(text, a, defs));
    DistributeRendered(cs);
    var b := Layout(cs);
    forall s ensures multiset(b.top)[Slot(s)] == 1 {
      TopOfSlots(cs, s);
    }
    BodyOfTerminated(cs, Services);
    BodyOfTerminated(cs, Models);
    BodyOfTerminated(cs, Factories);
    BodyOfTerminated(cs, Resources);
    NormalizeSlotFree(b.services, Services);
    NormalizeSlotFree(b.models, Models);
    NormalizeSlotFree(b.factories, Factories);
    NormalizeSlotFree(b.resources, Resources);
    AssembleExpands(b);
  }
}
