/** The text-layout helpers of `Base`: each is modelled as the list of lines
    it writes, without the console itself. */
module Layout {
  import opened Text
  import opened Results

  const ExitSuccess: int := 0
  const ExitFailure: int := 1

  /** What `abort` writes and the exit code it returns. */
  datatype Aborted = Aborted(lines: seq<string>, exitCode: int)

  const ErrorHeading: string := "AN ERROR OCCURRED:"

  function ColourOpen(code: int): string {
    if code == ExitFailure then "<error>" else ""
  }

  function ColourClose(code: int): string {
    if code == ExitFailure then "</error>" else ""
  }

  /** One message line of `abort`. */
  function AbortRow(code: int, pad: nat, width: int, line: string): string {
    ColourOpen(code) + Spaces(pad) + PadRight(line, width - 2 * pad) + Spaces(pad) + ColourClose(code)
  }

  /** A body between a rule line above and below, each beyond a blank line. */
  function Framed(rule: string, body: seq<string>): (r: seq<string>)
    ensures |r| == |body| + 4
  {
    [""] + [rule] + body + [rule] + [""]
  }

  lemma FramedAt(rule: string, body: seq<string>, i: nat)
    requires i < |body| + 4
    ensures Framed(rule, body)[i] ==
      if i == 0 || i == |body| + 3 then ""
      else if i == 1 || i == |body| + 2 then rule
      else body[i - 2]
  {
  }

  /** The lines `abort` pads: on failure a heading and a blank line come first. */
  function Shown(code: int, messages: seq<string>): seq<string> {
    if code == ExitFailure then [ErrorHeading, ""] + messages else messages
  }

  /** The spaces on each side of a message. */
  function Pad(code: int): nat {
    if code == ExitFailure then 2 else 0
  }

  /** The width of every line inside the tags. */
  function Width(code: int, messages: seq<string>): nat {
    if code == ExitFailure then MaxLength(Shown(code, messages)) + 2 * Pad(code) else 0
  }

  function AbortBody(code: int, messages: seq<string>): (body: seq<string>)
    ensures |body| == |Shown(code, messages)|
    ensures forall i :: 0 <= i < |body| ==>
      body[i] == AbortRow(code, Pad(code), Width(code, messages), Shown(code, messages)[i])
  {
    var shown := Shown(code, messages);
    seq(|shown|, i requires 0 <= i < |shown| => AbortRow(code, Pad(code), Width(code, messages), shown[i]))
  }

  /** `abort`: on failure the messages get a heading and a blank line, and
      every line is padded to the longest plus two spaces on each side inside
      `<error>` tags; any other code writes the messages bare. */
  function Abort(code: int, messages: seq<string>): (r: Aborted)
    ensures r.exitCode == code
    ensures |r.lines| == |messages| + (if code == ExitFailure then 6 else 4)
  {
    var rule := ColourOpen(code) + Spaces(Width(code, messages)) + ColourClose(code);
    Aborted(Framed(rule, AbortBody(code, messages)), code)
  }

  /** A failure line of the given width, inside `<error>` tags, carrying
      `line` two spaces in from the opening tag. */
  predicate ErrorRow(row: string, width: int, line: string) {
    && |row| == |"<error>"| + width + |"</error>"|
    && StartsWith(row, "<error>") && EndsWith(row, "</error>")
    && |"<error>"| + 2 + |line| <= |row|
    && row[|"<error>"| + 2..|"<error>"| + 2 + |line|] == line
  }

  /** On failure every line between the blank first and last is the same
      width, longest message plus four, inside `<error>` tags, and each
      message (the heading and the blank line first) sits two spaces in from
      the opening tag. */
  lemma AbortFailureLayout(messages: seq<string>)
    ensures Shown(ExitFailure, messages) == [ErrorHeading, ""] + messages
    ensures Width(ExitFailure, messages) == MaxLength([ErrorHeading, ""] + messages) + 4
    ensures var lines, width := Abort(ExitFailure, messages).lines, Width(ExitFailure, messages);
      && lines[0] == "" && lines[|lines| - 1] == ""
      && ErrorRow(lines[1], width, "") && ErrorRow(lines[|lines| - 2], width, "")
      && forall i :: 0 <= i < |messages| + 2 ==> ErrorRow(lines[i + 2], width, Shown(ExitFailure, messages)[i])
  {
    AbortFailureEdges(messages);
    forall i | 0 <= i < |messages| + 2
      ensures ErrorRow(Abort(ExitFailure, messages).lines[i + 2], Width(ExitFailure, messages),
                       Shown(ExitFailure, messages)[i])
    {
      AbortFailureRowAt(messages, i);
    }
  }

  /** The lines of a failure: blank, rule, body, rule, blank. */
  lemma AbortFailureFramed(messages: seq<string>)
    ensures Abort(ExitFailure, messages).lines
         == Framed("<error>" + Spaces(Width(ExitFailure, messages)) + "</error>", AbortBody(ExitFailure, messages))
  {
  }

  lemma AbortFailureEdges(messages: seq<string>)
    ensures var lines, width := Abort(ExitFailure, messages).lines, Width(ExitFailure, messages);
      && lines[0] == "" && lines[|lines| - 1] == ""
      && ErrorRow(lines[1], width, "") && ErrorRow(lines[|lines| - 2], width, "")
  {
    var width := Width(ExitFailure, messages);
    AbortFailureFramed(messages);
    FramedEdges("<error>" + Spaces(width) + "</error>", AbortBody(ExitFailure, messages));
    RuleRow(width);
  }

  /** The first and last two lines of a frame. */
  lemma FramedEdges(rule: string, body: seq<string>)
    ensures var r := Framed(rule, body);
      r[0] == "" && r[|r| - 1] == "" && r[1] == rule && r[|r| - 2] == rule
  {
  }

  /** The failure rule is an error row carrying nothing. */
  lemma RuleRow(width: nat)
    ensures ErrorRow("<error>" + Spaces(width) + "</error>", width, "")
  {
    var rule := "<error>" + Spaces(width) + "</error>";
    assert rule[..7] == "<error>";
    assert rule[|rule| - 8..] == "</error>";
  }

  lemma AbortFailureRowAt(messages: seq<string>, i: nat)
    requires i < |messages| + 2
    ensures ErrorRow(Abort(ExitFailure, messages).lines[i + 2], Width(ExitFailure, messages),
                     Shown(ExitFailure, messages)[i])
  {
    var shown := Shown(ExitFailure, messages);
    var width := Width(ExitFailure, messages);
    var rule := "<error>" + Spaces(width) + "</error>";
    var body := AbortBody(ExitFailure, messages);
    AbortFailureFramed(messages);
    FramedAt(rule, body, i + 2);
    assert |shown[i]| <= MaxLength(shown);
    FailureRow(width, shown[i]);
  }

  lemma FailureRow(width: int, line: string)
    requires |line| <= width - 4
    ensures ErrorRow(AbortRow(ExitFailure, 2, width, line), width, line)
  {
    var p := PadRight(line, width - 4);
    var row := "<error>" + Spaces(2) + p + Spaces(2) + "</error>";
    assert row[9..9 + |line|] == p[..|line|];
    assert row[..7] == "<error>";
    assert row[|row| - 8..] == "</error>";
  }

  /** Any other exit code writes the messages unpadded and untagged between
      two blank lines above and two below. */
  lemma AbortOtherLayout(code: int, messages: seq<string>)
    requires code != ExitFailure
    ensures Abort(code, messages).lines == ["", ""] + messages + ["", ""]
  {
    var rule := ColourOpen(code) + Spaces(0) + ColourClose(code);
    assert rule == "";
    var body := AbortBody(code, messages);
    assert Abort(code, messages).lines == Framed(rule, body);
    assert body == messages by {
      forall i | 0 <= i < |messages|
        ensures body[i] == messages[i]
      {
        PlainRow(code, messages[i]);
      }
    }
  }

  /** Without the failure code a line is written as it is. */
  lemma PlainRow(code: int, line: string)
    requires code != ExitFailure
    ensures AbortRow(code, 0, 0, line) == line
  {
    assert PadRight(line, 0) == line;
    assert AbortRow(code, 0, 0, line) == "" + "" + line + "" + "";
  }

  /** One line of `outputBlock`. */
  function BlockRow(kind: string, width: nat, line: string): string {
    "<" + kind + "> " + PadRight(line, width) + " </" + kind + ">"
  }

  /** A line of a `kind` block of the given width carrying `line`. */
  predicate Boxed(row: string, kind: string, width: nat, line: string) {
    var lead := |kind| + 3;
    && |line| <= width
    && |row| == width + 2 * |kind| + 7
    && row[lead..lead + |line|] == line
    && row[lead - 1] == ' ' && row[lead + width] == ' '
  }

  lemma BlockRowLayout(kind: string, width: nat, line: string)
    requires |line| <= width
    ensures Boxed(BlockRow(kind, width, line), kind, width, line)
  {
    var open, p, close := "<" + kind + "> ", PadRight(line, width), " </" + kind + ">";
    var row := open + p + close;
    assert row[|open|..|open| + |line|] == p[..|line|];
    assert row[|open| - 1] == open[|open| - 1];
    assert row[|open| + width] == close[0];
  }

  /** `outputBlock`: every line, with a blank one above and below, padded to
      the longest and wrapped in `<type> ` … ` </type>`.  An empty list has
      no longest line: `max` of an empty array fails. */
  function OutputBlock(lines: seq<string>, kind: string): (r: Result<seq<string>, string>)
    ensures r.Err? <==> lines == []
    ensures r.Ok? ==> |r.value| == |lines| + 2
  {
    if lines == [] then Err("max(): Argument #1 ($value) must contain at least one element")
    else
      var width := MaxLength(lines);
      Ok(Framed1(BlockRow(kind, width, ""), seq(|lines|, i requires 0 <= i < |lines| => BlockRow(kind, width, lines[i]))))
  }

  /** A body between one line above and the same line below. */
  function Framed1(edge: string, body: seq<string>): (r: seq<string>)
    ensures |r| == |body| + 2
  {
    [edge] + body + [edge]
  }

  /** Every line of a block, the blank edges included, has the same width
      with a space inside each tag, and each text line carries its line right
      after the opening tag and that space. */
  lemma OutputBlockLayout(lines: seq<string>, kind: string)
    requires lines != []
    ensures var out := OutputBlock(lines, kind).value;
      && Boxed(out[0], kind, MaxLength(lines), "")
      && Boxed(out[|out| - 1], kind, MaxLength(lines), "")
      && forall i :: 0 <= i < |lines| ==> Boxed(out[i + 1], kind, MaxLength(lines), lines[i])
  {
    var width := MaxLength(lines);
    var body := seq(|lines|, i requires 0 <= i < |lines| => BlockRow(kind, width, lines[i]));
    var out := Framed1(BlockRow(kind, width, ""), body);
    assert OutputBlock(lines, kind).value == out;
    BlockRowLayout(kind, width, "");
    forall i | 0 <= i < |lines|
      ensures Boxed(out[i + 1], kind, width, lines[i])
    {
      assert out[i + 1] == body[i];
      BlockRowLayout(kind, width, lines[i]);
    }
  }

  function KeysOf(pairs: seq<(string, string)>): (keys: seq<string>)
    ensures |keys| == |pairs| && forall i :: 0 <= i < |pairs| ==> keys[i] == pairs[i].0
  {
    seq(|pairs|, i requires 0 <= i < |pairs| => pairs[i].0)
  }

  /** One line of `keyValueList`; a key longer than the column gets no padding. */
  function KeyRow(pair: (string, string), column: nat, separator: string): string {
    var gap := if |pair.0| <= column then column - |pair.0| else 0;
    "<comment>" + pair.0 + "</comment>" + separator + Spaces(gap) + pair.1
  }

  /** A `keyValueList` row for `pair` whose value starts, leaving out the
      invisible tags, at `column`, after at least one space. */
  predicate Aligned(row: string, pair: (string, string), column: int, separator: string) {
    && StartsWith(row, "<comment>" + pair.0 + "</comment>" + separator + " ")
    && EndsWith(row, pair.1)
    && |row| - |"<comment></comment>"| - |pair.1| == column
  }

  lemma KeyRowLayout(pair: (string, string), column: nat, separator: string)
    requires |pair.0| < column
    ensures Aligned(KeyRow(pair, column, separator), pair, column + |separator|, separator)
  {
    var head := "<comment>" + pair.0 + "</comment>" + separator;
    var gap := Spaces(column - |pair.0|);
    var row := head + gap + pair.1;
    assert row[..|head| + 1] == head + [' '];
    assert row[|head + gap|..] == pair.1;
  }

  /** The column every value is padded to: one past the longest key. */
  function KeyColumn(pairs: seq<(string, string)>): (column: nat)
    requires pairs != []
    ensures forall i :: 0 <= i < |pairs| ==> |pairs[i].0| < column
    ensures exists i :: 0 <= i < |pairs| && column == |pairs[i].0| + 1
  {
    var keys := KeysOf(pairs);
    assert forall i :: 0 <= i < |pairs| ==> |keys[i]| <= MaxLength(keys);
    var j :| 0 <= j < |keys| && |keys[j]| == MaxLength(keys);
    assert |pairs[j].0| == MaxLength(keys);
    MaxLength(keys) + 1
  }

  function KeyRows(pairs: seq<(string, string)>, column: nat, separator: string): (rows: seq<string>)
    ensures |rows| == |pairs|
    ensures forall i :: 0 <= i < |pairs| ==> rows[i] == KeyRow(pairs[i], column, separator)
  {
    seq(|pairs|, i requires 0 <= i < |pairs| => KeyRow(pairs[i], column, separator))
  }

  /** `keyValueList`: no lines for an empty list; otherwise each key in
      `<comment>` tags, the separator, and enough spaces that every value
      starts one column past the longest key and separator. */
  function KeyValueList(pairs: seq<(string, string)>, padTop: bool, padBottom: bool, separator: string)
    : (r: seq<string>)
    ensures pairs == [] ==> r == []
    ensures pairs != [] ==> |r| == |pairs| + (if padTop then 1 else 0) + (if padBottom then 1 else 0)
  {
    if pairs == [] then []
    else (if padTop then [""] else []) + KeyRows(pairs, KeyColumn(pairs), separator) + (if padBottom then [""] else [])
  }

  /** Leaving out the invisible tags, every value starts at the same column,
      one past the longest key and the separator, after at least one space. */
  lemma RowsAligned(pairs: seq<(string, string)>, separator: string)
    requires pairs != []
    ensures var rows := KeyRows(pairs, KeyColumn(pairs), separator);
      forall i :: 0 <= i < |pairs| ==> Aligned(rows[i], pairs[i], KeyColumn(pairs) + |separator|, separator)
  {
    var rows := KeyRows(pairs, KeyColumn(pairs), separator);
    forall i | 0 <= i < |pairs|
      ensures Aligned(rows[i], pairs[i], KeyColumn(pairs) + |separator|, separator)
    {
      KeyRowLayout(pairs[i], KeyColumn(pairs), separator);
    }
  }

  /** The rows sit between the optional blank lines, in the order of the pairs. */
  lemma KeyValueRowAt(pairs: seq<(string, string)>, padTop: bool, padBottom: bool, separator: string, i: nat)
    requires i < |pairs|
    ensures var r := KeyValueList(pairs, padTop, padBottom, separator);
      var first := if padTop then 1 else 0;
      first + i < |r| && r[first + i] == KeyRows(pairs, KeyColumn(pairs), separator)[i]
  {
    var rows := KeyRows(pairs, KeyColumn(pairs), separator);
    var top: seq<string> := if padTop then [""] else [];
    var bottom: seq<string> := if padBottom then [""] else [];
    assert KeyValueList(pairs, padTop, padBottom, separator) == top + rows + bottom;
    InMiddle(top, rows, bottom, i);
  }

  lemma InMiddle(top: seq<string>, rows: seq<string>, bottom: seq<string>, i: nat)
    requires i < |rows|
    ensures |top| + i < |top + rows + bottom| && (top + rows + bottom)[|top| + i] == rows[i]
  {
  }

  /** Every line of the list but the padding is an aligned row. */
  lemma KeyValueAligned(pairs: seq<(string, string)>, padTop: bool, padBottom: bool, separator: string, i: nat)
    requires i < |pairs|
    ensures var r := KeyValueList(pairs, padTop, padBottom, separator);
      var first := if padTop then 1 else 0;
      first + i < |r| && Aligned(r[first + i], pairs[i], KeyColumn(pairs) + |separator|, separator)
  {
    KeyValueRowAt(pairs, padTop, padBottom, separator, i);
    RowsAligned(pairs, separator);
  }

  /** `banner`: the trimmed text between two rules of as many dashes. */
  function Banner(text: string, kind: string): (r: seq<string>)
    ensures |r| == 5 && r[0] == "" && r[4] == "" && r[1] == r[3]
  {
    var t := Trim(text);
    var rule := "<" + kind + ">" + Repeat('-', |t|) + "</" + kind + ">";
    ["", rule, "<" + kind + ">" + t + "</" + kind + ">", rule, ""]
  }

  /** The rules are exactly as long as the text between the tags. */
  lemma BannerRuleFits(text: string, kind: string)
    ensures var r := Banner(text, kind);
      && |r[1]| == |r[2]|
      && r[2] == "<" + kind + ">" + Trim(text) + "</" + kind + ">"
      && forall i :: |kind| + 2 <= i < |r[1]| - |kind| - 3 ==> r[1][i] == '-'
  {
    var t := Trim(text);
    var rule := "<" + kind + ">" + Repeat('-', |t|) + "</" + kind + ">";
    forall i | |kind| + 2 <= i < |rule| - |kind| - 3
      ensures rule[i] == '-'
    {
      assert rule[i] == Repeat('-', |t|)[i - |kind| - 2];
    }
  }
}
