/** The second pass of `BaseMaker::writeServiceFile`: the spliced file is
    read line by line and each line goes either to the top level of the file
    or to the section (`'services'`, `'models'`, `'factories'`,
    `'resources'`) it sits in. Where a section opens, the top level gets a
    placeholder that the regrouped section later replaces. */
module ServiceLayout {
  import opened Text
  import opened Results
  import opened Maker

  datatype Section = Services | Models | Factories | Resources

  /** The section's key as it is quoted in services.php. */
  function KeyOf(s: Section): string {
    match s
    case Services => "services"
    case Models => "models"
    case Factories => "factories"
    case Resources => "resources"
  }

  /** The placeholder the top level holds for the section; it is also the
      token of the section's generator line. */
  function Slot(s: Section): string {
    match s
    case Services => "SERVICES"
    case Models => "MODELS"
    case Factories => "FACTORIES"
    case Resources => "RESOURCES"
  }

  /** A line opening the section starts with one tab and its quoted key. */
  function Opener(s: Section): string {
    Tabs(1) + "'" + KeyOf(s) + "'"
  }

  /** The section whose opener starts the line, tried in the source's order. */
  function OpenerOf(line: string): (r: Option<Section>)
    ensures r.Some? ==> StartsWith(line, Opener(r.value))
    ensures r.None? ==> forall s :: !StartsWith(line, Opener(s))
  {
    if StartsWith(line, Opener(Services)) then Some(Services)
    else if StartsWith(line, Opener(Models)) then Some(Models)
    else if StartsWith(line, Opener(Factories)) then Some(Factories)
    else if StartsWith(line, Opener(Resources)) then Some(Resources)
    else None
  }

  /** A line closing a section: one tab, then `],`. */
  predicate IsCloser(line: string) {
    StartsWith(line, Tabs(1) + "],")
  }

  const GeneratorLead: string := Tabs(2) + "// GENERATOR["

  /** The line contains two tabs and `// GENERATOR[`, anywhere, followed on
      the same line by a `]`: the unanchored `\/\/ GENERATOR\[.*\]`. */
  predicate IsGeneratorLine(line: string) {
    exists i | 0 <= i <= |line| :: OccursAt(line, GeneratorLead, i) && ClosedFrom(line, i + |GeneratorLead|)
  }

  /** A `]` follows position `from` before any newline. */
  predicate ClosedFrom(line: string, from: nat)
    decreases |line| - from
  {
    from < |line| && line[from] != '\n' && (line[from] == ']' || ClosedFrom(line, from + 1))
  }

  lemma {:induction false} ClosedFromMeans(line: string, from: nat)
    ensures ClosedFrom(line, from) <==>
              exists j :: from <= j < |line| && line[j] == ']' && '\n' !in line[from..j + 1]
    decreases |line| - from
  {
    if from < |line| {
      ClosedFromMeans(line, from + 1);
      if ClosedFrom(line, from) && line[from] != ']' {
        var j :| from + 1 <= j < |line| && line[j] == ']' && '\n' !in line[from + 1..j + 1];
        assert line[from..j + 1] == [line[from]] + line[from + 1..j + 1];
      }
      if exists j :: from <= j < |line| && line[j] == ']' && '\n' !in line[from..j + 1] {
        var j :| from <= j < |line| && line[j] == ']' && '\n' !in line[from..j + 1];
        assert line[from] == line[from..j + 1][0];
        if j > from {
          assert line[from + 1..j + 1] == line[from..j + 1][1..];
        }
      }
    }
  }

  // ---------------------------------------------------------------------
  // The bucketing loop

  /** Which array `$aArray` refers to. */
  datatype Cursor = Top | Within(section: Section)

  /** `$aFile` and the four section arrays. */
  datatype Buckets = Buckets(top: seq<string>, services: seq<string>, models: seq<string>,
                             factories: seq<string>, resources: seq<string>)
  {
    function Of(c: Cursor): seq<string> {
      match c
      case Top => top
      case Within(Services) => services
      case Within(Models) => models
      case Within(Factories) => factories
      case Within(Resources) => resources
    }

    /** Appends to the array the cursor refers to, and to no other. */
    function Add(c: Cursor, items: seq<string>): (b: Buckets)
      ensures b.Of(c) == Of(c) + items
      ensures forall d :: d != c ==> b.Of(d) == Of(d)
    {
      match c
      case Top => this.(top := top + items)
      case Within(Services) => this.(services := services + items)
      case Within(Models) => this.(models := models + items)
      case Within(Factories) => this.(factories := factories + items)
      case Within(Resources) => this.(resources := resources + items)
    }
  }

  datatype State = State(buckets: Buckets, cursor: Cursor)

  const Start: State := State(Buckets([], [], [], [], []), Top)

  /** One iteration of the loop. An opener goes, with its placeholder, to the
      array in use and switches to its section; otherwise a closer switches
      back to the top level, and the line is kept unless it is a generator line. */
  function Step(st: State, line: string): State {
    match OpenerOf(line)
    case Some(s) => State(st.buckets.Add(st.cursor, [line, Slot(s)]), Within(s))
    case None =>
      var c := if IsCloser(line) then Top else st.cursor;
      State(if IsGeneratorLine(line) then st.buckets else st.buckets.Add(c, [line]), c)
  }

  function Run(st: State, lines: seq<string>): State
    decreases |lines|
  {
    if lines == [] then st else Run(Step(st, lines[0]), lines[1..])
  }

  /** `$aFile` and the section arrays after reading the whole file. */
  function Distribute(lines: seq<string>): Buckets {
    Run(Start, lines).buckets
  }

  lemma {:induction false} RunAppend(st: State, a: seq<string>, b: seq<string>)
    ensures Run(st, a + b) == Run(Run(st, a), b)
    decreases |a|
  {
    if a == [] {
      assert a + b == b;
    } else {
      assert (a + b)[0] == a[0] && (a + b)[1..] == a[1..] + b;
      RunAppend(Step(st, a[0]), a[1..], b);

    }
  }

  // ---------------------------------------------------------------------
  // Reference layout: a file made of plain runs and section blocks

  /** An independent description of a well-nested services file: runs of
      top-level lines, and blocks that open a section, hold its body, and
      close it. */
  datatype Chunk =
    | Plain(lines: seq<string>)
    | Block(section: Section, opener: string, body: seq<string>, closer: string)

  /** A line that neither opens nor closes a section. */
  predicate Inert(line: string) {
    OpenerOf(line).None? && !IsCloser(line)
  }

  /** A run of top-level lines may hold closers, which at the top level
      change nothing; a block's body holds neither openers nor closers. */
  predicate Parsable(c: Chunk) {
    match c
    case Plain(ls) => forall i :: 0 <= i < |ls| ==> OpenerOf(ls[i]).None?
    case Block(s, o, b, cl) =>
      && OpenerOf(o) == Some(s)
      && (forall i :: 0 <= i < |b| ==> Inert(b[i]))
      && IsCloser(cl)
  }

  function ChunkLines(c: Chunk): seq<string> {
    match c
    case Plain(ls) => ls
    case Block(_, o, bd, cl) => [o] + bd + [cl]
  }

  /** The file's lines, chunk after chunk. */
  function Render(cs: seq<Chunk>): seq<string>
    decreases |cs|
  {
    if cs == [] then [] else ChunkLines(cs[0]) + Render(cs[1..])
  }

  /** The lines that survive the generator-line filter, in order. */
  function Keep(lines: seq<string>): (r: seq<string>)
    ensures forall i :: 0 <= i < |r| ==> !IsGeneratorLine(r[i])
    decreases |lines|
  {
    if lines == [] then []
    else (if IsGeneratorLine(lines[0]) then [] else [lines[0]]) + Keep(lines[1..])
  }

  /** What the top level should hold: plain lines and closers that are not
      generator lines, and every opener followed by its placeholder. */
  function TopOf(cs: seq<Chunk>): seq<string>
    decreases |cs|
  {
    if cs == [] then []
    else
      (match cs[0]
       case Plain(ls) => Keep(ls)
       case Block(s, o, _, cl) => [o, Slot(s)] + Keep([cl]))
      + TopOf(cs[1..])
  }

  /** What the section's array should hold: the bodies of its blocks, in
      order, without generator lines. */
  function BodyOf(cs: seq<Chunk>, s: Section): seq<string>
    decreases |cs|
  {
    if cs == [] then []
    else
      (match cs[0]
       case Block(t, _, b, _) => if t == s then Keep(b) else []
       case Plain(_) => [])
      + BodyOf(cs[1..], s)
  }

  function Layout(cs: seq<Chunk>): Buckets {
    Buckets(TopOf(cs), BodyOf(cs, Services), BodyOf(cs, Models), BodyOf(cs, Factories), BodyOf(cs, Resources))
  }

  lemma CloserIsNoOpener(line: string)
    requires IsCloser(line)
    ensures OpenerOf(line).None?
  {
    assert line[4] == (Tabs(1) + "],")[4] == ']';
    assert forall s :: Opener(s)[4] == '\'';
  }

  /** Inert lines inside a section go to that section (generator lines
      dropped), and the cursor stays where it is. */
  lemma {:induction false} RunInert(st: State, ls: seq<string>)
    requires forall i :: 0 <= i < |ls| ==> Inert(ls[i])
    ensures Run(st, ls) == State(st.buckets.Add(st.cursor, Keep(ls)), st.cursor)
    decreases |ls|
  {
    if ls == [] {
      assert st.buckets.Add(st.cursor, []) == st.buckets by {
        AddNothing(st.buckets, st.cursor);
      }
    } else {
      var next := Step(st, ls[0]);
      assert next.cursor == st.cursor;
      RunInert(next, ls[1..]);
      AddTwice(st.buckets, st.cursor, if IsGeneratorLine(ls[0]) then [] else [ls[0]], Keep(ls[1..]));
      if IsGeneratorLine(ls[0]) {
        AddNothing(st.buckets, st.cursor);
      }
    }
  }

  /** At the top level a closer is read like any other line: every line
      that opens nothing stays at the top level (generator lines dropped). */
  lemma {:induction false} RunTop(b: Buckets, ls: seq<string>)
    requires forall i :: 0 <= i < |ls| ==> OpenerOf(ls[i]).None?
    ensures Run(State(b, Top), ls) == State(b.Add(Top, Keep(ls)), Top)
    decreases |ls|
  {
    if ls == [] {
      AddNothing(b, Top);
    } else {
      var next := Step(State(b, Top), ls[0]);
      var kept := if IsGeneratorLine(ls[0]) then [] else [ls[0]];
      assert next == State(b.Add(Top, kept), Top) by {
        if IsGeneratorLine(ls[0]) {
          AddNothing(b, Top);
        }
      }
      RunTop(b.Add(Top, kept), ls[1..]);
      AddTwice(b, Top, kept, Keep(ls[1..]));
    }
  }

  lemma AddNothing(b: Buckets, c: Cursor)
    ensures b.Add(c, []) == b
  {
    match c
    case Top =>
    case Within(s) => match s { case Services => case Models => case Factories => case Resources => }
  }

  lemma AddTwice(b: Buckets, c: Cursor, x: seq<string>, y: seq<string>)
    ensures b.Add(c, x).Add(c, y) == b.Add(c, x + y)
  {
    match c
    case Top =>
    case Within(s) => match s { case Services => case Models => case Factories => case Resources => }
  }

  /** The buckets of a well-nested file are the reference layout: reading it
      from the top level ends at the top level with exactly `Layout`. */
  lemma DistributeRendered(cs: seq<Chunk>)
    requires forall i :: 0 <= i < |cs| ==> Parsable(cs[i])
    ensures Run(Start, Render(cs)) == State(Layout(cs), Top)
  {
    RunChunks(Start.buckets, cs);
    forall c ensures Extend(Start.buckets, cs).Of(c) == Layout(cs).Of(c) {
      ExtendOf(Start.buckets, cs, c);
      ExtendOf(Start.buckets, cs, c);
      match c
      case Top =>
      case Within(s) => match s { case Services => case Models => case Factories => case Resources => }
    }
    SameBuckets(Extend(Start.buckets, cs), Layout(cs));
  }

  /** What a chunk list adds to the array a cursor refers to. */
  function Contribution(cs: seq<Chunk>, c: Cursor): seq<string> {
    match c
    case Top => TopOf(cs)
    case Within(s) => BodyOf(cs, s)
  }

  /** The buckets after the chunks' layout has been added from the top level. */
  function Extend(b: Buckets, cs: seq<Chunk>): Buckets {
    Buckets(b.top + TopOf(cs), b.services + BodyOf(cs, Services), b.models + BodyOf(cs, Models),
            b.factories + BodyOf(cs, Factories), b.resources + BodyOf(cs, Resources))
  }

  lemma ExtendOf(b: Buckets, cs: seq<Chunk>, c: Cursor)
    ensures Extend(b, cs).Of(c) == b.Of(c) + Contribution(cs, c)
  {
    match c
    case Top =>
    case Within(s) => match s { case Services => case Models => case Factories => case Resources => }
  }

  lemma SameBuckets(x: Buckets, y: Buckets)
    requires forall c :: x.Of(c) == y.Of(c)
    ensures x == y
  {
    assert x.Of(Top) == y.Of(Top);
    assert x.Of(Within(Services)) == y.Of(Within(Services));
    assert x.Of(Within(Models)) == y.Of(Within(Models));
    assert x.Of(Within(Factories)) == y.Of(Within(Factories));
    assert x.Of(Within(Resources)) == y.Of(Within(Resources));
  }


  lemma ContributionSplit(cs: seq<Chunk>, c: Cursor)
    requires cs != []
    ensures Contribution(cs, c) == Contribution([cs[0]], c) + Contribution(cs[1..], c)
  {
    var one := [cs[0]];
    assert one[0] == cs[0] && one[1..] == [];
    match c
    case Top =>
      assert TopOf(one) == TopOf(one) + TopOf(one[1..]);
    case Within(s) =>
      assert BodyOf(one, s) == BodyOf(one, s) + BodyOf(one[1..], s);
  }

  lemma {:induction false} RunChunks(b: Buckets, cs: seq<Chunk>)
    requires forall i :: 0 <= i < |cs| ==> Parsable(cs[i])
    ensures Run(State(b, Top), Render(cs)) == State(Extend(b, cs), Top)
    decreases |cs|
  {
    if cs == [] {
      ExtendNothing(b);
    } else {
      assert Render(cs) == ChunkLines(cs[0]) + Render(cs[1..]);
      RunAppend(State(b, Top), ChunkLines(cs[0]), Render(cs[1..]));
      RunChunk(b, cs[0]);
      RunChunks(Extend(b, [cs[0]]), cs[1..]);
      ExtendSplit(b, cs);
    }
  }

  lemma ExtendNothing(b: Buckets)
    ensures Extend(b, []) == b
  {
    forall c ensures Extend(b, []).Of(c) == b.Of(c) {
      ExtendOf(b, [], c);
      match c
      case Top =>
      case Within(s) =>
    }
    SameBuckets(Extend(b, []), b);
  }

  lemma ExtendSplit(b: Buckets, cs: seq<Chunk>)
    requires cs != []
    ensures Extend(Extend(b, [cs[0]]), cs[1..]) == Extend(b, cs)
  {
    var mid := Extend(b, [cs[0]]);
    forall d ensures Extend(mid, cs[1..]).Of(d) == Extend(b, cs).Of(d) {
      ExtendOf(mid, cs[1..], d);
      ExtendOf(b, [cs[0]], d);
      ExtendOf(b, cs, d);
      ContributionSplit(cs, d);
      AppendAssoc(b.Of(d), Contribution([cs[0]], d), Contribution(cs[1..], d));
    }
    SameBuckets(Extend(mid, cs[1..]), Extend(b, cs));
  }

  lemma AppendAssoc(x: seq<string>, y: seq<string>, z: seq<string>)
    ensures (x + y) + z == x + (y + z)
  {
  }

  /** Reading one chunk from the top level. */
  lemma RunChunk(b: Buckets, c: Chunk)
    requires Parsable(c)
    ensures Run(State(b, Top), ChunkLines(c)) == State(Extend(b, [c]), Top)
  {
    match c
    case Plain(ls) => RunPlain(b, ls);
    case Block(s, o, bd, cl) => RunBlock(b, s, o, bd, cl);
  }

  lemma RunPlain(b: Buckets, ls: seq<string>)
    requires Parsable(Plain(ls))
    ensures Run(State(b, Top), ls) == State(Extend(b, [Plain(ls)]), Top)
  {
    var c := Plain(ls);
    RunTop(b, ls);
    assert TopOf([c]) == Keep(ls) + TopOf([]);
    forall d ensures b.Add(Top, Keep(ls)).Of(d) == Extend(b, [c]).Of(d) {
      ExtendOf(b, [c], d);
      if d.Within? { assert BodyOf([c], d.section) == [] + BodyOf([], d.section); }
    }
    SameBuckets(b.Add(Top, Keep(ls)), Extend(b, [c]));
  }

  /** After the opener, the body goes to the section; the closer returns to
      the top level. */
  lemma RunBlockLines(b: Buckets, s: Section, o: string, bd: seq<string>, cl: string)
    requires Parsable(Block(s, o, bd, cl))
    ensures Run(State(b, Top), [o] + bd + [cl])
            == State(b.Add(Top, [o, Slot(s)]).Add(Within(s), Keep(bd)).Add(Top, Keep([cl])), Top)
  {
    var st1 := Step(State(b, Top), o);
    assert st1 == State(b.Add(Top, [o, Slot(s)]), Within(s));
    assert [o] + bd + [cl] == [o] + (bd + [cl]);
    assert Run(State(b, Top), [o] + bd + [cl]) == Run(st1, bd + [cl]);
    RunAppend(st1, bd, [cl]);
    RunInert(st1, bd);
    var st2 := State(st1.buckets.Add(Within(s), Keep(bd)), Within(s));
    CloserIsNoOpener(cl);
    assert Run(st2, [cl]) == Step(st2, cl);
    assert Keep([cl]) == (if IsGeneratorLine(cl) then [] else [cl]);
    if IsGeneratorLine(cl) { AddNothing(st2.buckets, Top); }
  }

  /** What one block adds: opener and placeholder (and a kept closer) at the
      top level, its kept body to its own section, nothing elsewhere. */
  lemma BlockContribution(s: Section, o: string, bd: seq<string>, cl: string, d: Cursor)
    ensures Contribution([Block(s, o, bd, cl)], d)
         == if d == Top then [o, Slot(s)] + Keep([cl])
            else if d == Within(s) then Keep(bd)
            else []
  {
    var c := Block(s, o, bd, cl);
    assert [c][1..] == [];
    if d.Within? {
      assert BodyOf([c], d.section) == (if s == d.section then Keep(bd) else []) + BodyOf([], d.section);
    } else {
      assert TopOf([c]) == [o, Slot(s)] + Keep([cl]) + TopOf([]);
    }
  }

  lemma RunBlock(b: Buckets, s: Section, o: string, bd: seq<string>, cl: string)
    requires Parsable(Block(s, o, bd, cl))
    ensures Run(State(b, Top), ChunkLines(Block(s, o, bd, cl))) == State(Extend(b, [Block(s, o, bd, cl)]), Top)
  {
    var c := Block(s, o, bd, cl);
    RunBlockLines(b, s, o, bd, cl);
    var r1 := b.Add(Top, [o, Slot(s)]);
    var r2 := r1.Add(Within(s), Keep(bd));
    var r := r2.Add(Top, Keep([cl]));
    forall d ensures r.Of(d) == Extend(b, [c]).Of(d) {
      ExtendOf(b, [c], d);
      BlockContribution(s, o, bd, cl, d);
      if d == Top {
        assert r.Of(d) == b.Of(Top) + [o, Slot(s)] + Keep([cl]);
      } else if d == Within(s) {
        assert r.Of(d) == b.Of(d) + Keep(bd);
      } else {
        assert r.Of(d) == b.Of(d);
      }
    }
    SameBuckets(r, Extend(b, [c]));
  }
}
