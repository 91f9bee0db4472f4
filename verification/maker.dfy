/** The string helpers of `BaseMaker`: indentation (`tabs`), template
    rendering (`getResource`) and class-list parsing (`parseClassNames`). */
module Maker {
  import opened Text
  import opened Order
  import opened Results

  /** TAB_WIDTH: the number of spaces in one tab. */
  const TabWidth: nat := 4

  /** `tabs($n)`: `n` tabs' worth of spaces. */
  function Tabs(n: nat): (r: string)
    ensures |r| == TabWidth * n
    ensures forall i :: 0 <= i < |r| ==> r[i] == ' '
  {
    Spaces(TabWidth * n)
  }

  // ---------------------------------------------------------------------
  // getResource

  datatype ResourceError = ResourcePathNotDefined

  /** The placeholder a template field is written as: `{{` + upper-cased name + `}}`. */
  function Placeholder(field: string): (p: string)
    ensures StartsWith(p, "{{") && |p| >= 4
  {
    "{{" + Upper(field) + "}}"
  }

  /** Substitutes each field in turn, every occurrence of its placeholder
      at once; later fields see the text earlier ones produced. */
  function Substitute(template: string, fields: seq<(string, string)>): string
    decreases |fields|
  {
    if fields == [] then template
    else Substitute(ReplaceAll(template, Placeholder(fields[0].0), fields[0].1), fields[1..])
  }

  /** `getResource`: the template text (what `require` of the resource file
      returns) with the fields substituted; RESOURCE_PATH must be set. */
  function GetResource(resourcePath: string, template: string, fields: seq<(string, string)>)
    : (r: Result<string, ResourceError>)
    ensures r.Err? <==> Falsy(resourcePath)
    ensures r.Ok? && fields == [] ==> r.value == template
  {
    if Falsy(resourcePath) then Err(ResourcePathNotDefined) else Ok(Substitute(template, fields))
  }

  lemma ContainsPrefixOf(s: string, key: string, prefix: string)
    requires Contains(s, key) && StartsWith(key, prefix)
    ensures Contains(s, prefix)
  {
    var i :| 0 <= i <= |s| && OccursAt(s, key, i);
    assert s[i..i + |prefix|] == key[..|prefix|];
    assert OccursAt(s, prefix, i);
  }

  /** A template without any `{{` comes back unchanged whatever the fields. */
  lemma {:induction false} NoPlaceholderUnchanged(template: string, fields: seq<(string, string)>)
    requires !Contains(template, "{{")
    ensures Substitute(template, fields) == template
    ensures forall path :: !Falsy(path) ==> GetResource(path, template, fields) == Ok(template)
    decreases |fields|
  {
    if fields != [] {
      var key := Placeholder(fields[0].0);
      if Contains(template, key) {
        ContainsPrefixOf(template, key, "{{");
      }
      ReplaceAbsent(template, key, fields[0].1);
      NoPlaceholderUnchanged(template, fields[1..]);
    }
  }

  lemma ReplaceSkip(s: string, key: string, with: string)
    requires key != "" && |key| <= |s| && !OccursAt(s, key, 0)
    ensures ReplaceAll(s, key, with) == [s[0]] + ReplaceAll(s[1..], key, with)
  {
  }

  lemma OccursShift(s: string, key: string, j: nat)
    requires s != ""
    ensures OccursAt(s[1..], key, j) <==> OccursAt(s, key, j + 1)
  {
    if j + 1 + |key| <= |s| {
      assert s[1..][j..j + |key|] == s[j + 1..j + 1 + |key|];
    }
  }

  /** Text in which no occurrence starts is copied through unchanged. */
  lemma {:induction false} ReplaceKeepsPrefix(s: string, key: string, with: string, i: nat)
    requires key != "" && i + |key| <= |s|
    requires forall j :: 0 <= j < i ==> !OccursAt(s, key, j)
    ensures ReplaceAll(s, key, with) == s[..i] + ReplaceAll(s[i..], key, with)
    decreases i
  {
    if i > 0 {
      ReplaceSkip(s, key, with);
      forall j | 0 <= j < i - 1
        ensures !OccursAt(s[1..], key, j)
      {
        OccursShift(s, key, j);
      }
      ReplaceKeepsPrefix(s[1..], key, with, i - 1);
      assert s[1..][i - 1..] == s[i..];
      assert [s[0]] + s[1..][..i - 1] == s[..i];
    }
  }

  /** `str_replace` works from the first occurrence: everything before it is
      kept, the occurrence becomes the replacement, and the scan resumes
      right after it. */
  lemma ReplaceFromFirstOccurrence(s: string, key: string, with: string, i: nat)
    requires key != ""
    requires OccursAt(s, key, i)
    requires forall j :: 0 <= j < i ==> !OccursAt(s, key, j)
    ensures ReplaceAll(s, key, with) == s[..i] + with + ReplaceAll(s[i + |key|..], key, with)
  {
    ReplaceKeepsPrefix(s, key, with, i);
    ReplaceHit(s[i..], key, with);
    assert s[i..][|key|..] == s[i + |key|..];
  }

  lemma ReplaceHit(s: string, key: string, with: string)
    requires key != "" && OccursAt(s, key, 0)
    ensures ReplaceAll(s, key, with) == with + ReplaceAll(s[|key|..], key, with)
  {
    assert s[..|key|] == key;
  }

  /** A template holding one placeholder, with no other brace around it,
      renders as the text around the placeholder with the value in between. */
  lemma FillsLonePlaceholder(pre: string, field: string, value: string, post: string)
    requires '{' !in pre && '{' !in post
    ensures ReplaceAll(pre + Placeholder(field) + post, Placeholder(field), value) == pre + value + post
  {
    var key := Placeholder(field);
    var s := pre + key + post;
    assert OccursAt(s, key, |pre|) by {
      assert s[|pre|..|pre| + |key|] == key;
    }
    forall j | 0 <= j < |pre|
      ensures !OccursAt(s, key, j)
    {
      assert s[j] == pre[j] != key[0];
    }
    ReplaceFromFirstOccurrence(s, key, value, |pre|);
    assert s[..|pre|] == pre;
    assert s[|pre| + |key|..] == post;
    forall j | 0 <= j < |post|
      ensures !OccursAt(post, key, j)
    {
      assert post[j] != key[0];
    }
    ReplaceAbsent(post, key, value);
  }

  // ---------------------------------------------------------------------
  // parseClassNames

  /** The separators between class names: comma, semicolon, space. */
  const ListSeparators: set<char> := {',', ';', ' '}

  /** The separators inside one class name: colon, backslash, slash. */
  const NameSeparators: set<char> := {':', '\\', '/'}

  /** One entry of the list: trimmed, split at every name separator, each
      segment `ucfirst`ed, joined again with "/". */
  function ClassPath(piece: string): string {
    Join(ClassSegments(piece), "/")
  }

  /** `array_filter`: drops "" and "0", keeping order. */
  function Truthy(xs: seq<string>): (r: seq<string>)
    ensures forall i :: 0 <= i < |r| ==> !Falsy(r[i])
    ensures forall x :: x in r <==> x in xs && !Falsy(x)
    ensures |r| <= |xs|
  {
    if xs == [] then []
    else if Falsy(xs[0]) then Truthy(xs[1..])
    else [xs[0]] + Truthy(xs[1..])
  }

  /** Every entry that is neither "" nor "0" is kept as often as it occurs,
      and nothing else is. */
  lemma {:induction false} TruthyCounts(xs: seq<string>)
    ensures forall x :: multiset(Truthy(xs))[x] == if Falsy(x) then 0 else multiset(xs)[x]
    decreases |xs|
  {
    if xs != [] {
      TruthyCounts(xs[1..]);
      assert xs == [xs[0]] + xs[1..];
    }
  }

  /** Filtering a concatenation filters each half and keeps them in order,
      so the kept entries appear in the order of the input. */
  lemma {:induction false} TruthyAppend(a: seq<string>, b: seq<string>)
    ensures Truthy(a + b) == Truthy(a) + Truthy(b)
    decreases |a|
  {
    if a != [] {
      assert (a + b)[0] == a[0];
      assert (a + b)[1..] == a[1..] + b;
      TruthyAppend(a[1..], b);
    } else {
      assert a + b == b;
    }
  }

  /** A list with no "" or "0" entry is kept whole. */
  lemma {:induction false} TruthyKeeps(a: seq<string>)
    requires forall i :: 0 <= i < |a| ==> !Falsy(a[i])
    ensures Truthy(a) == a
    decreases |a|
  {
    if a != [] {
      TruthyKeeps(a[1..]);
    }
  }

  /** Every entry that is "" or "0" is dropped. */
  lemma {:induction false} TruthyDrops(a: seq<string>)
    requires forall i :: 0 <= i < |a| ==> Falsy(a[i])
    ensures Truthy(a) == []
    decreases |a|
  {
    if a != [] {
      TruthyDrops(a[1..]);
    }
  }

  /** The class names in input order, before any sorting. */
  function ClassPaths(names: string): seq<string> {
    var pieces := SplitOn(names, ListSeparators);
    Truthy(seq(|pieces|, i requires 0 <= i < |pieces| => ClassPath(pieces[i])))
  }

  /** `parseClassNames`. */
  function ParseClassNames(names: string, sort: bool): (r: seq<string>)
    ensures sort ==> Sorted(r)
    ensures multiset(r) == multiset(ClassPaths(names))
    ensures !sort ==> r == ClassPaths(names)
    ensures forall i :: 0 <= i < |r| ==> !Falsy(r[i])
  {
    var paths := ClassPaths(names);
    if sort then
      var r := Sort(paths);
      assert forall i :: 0 <= i < |r| ==> !Falsy(r[i]) by {
        forall i | 0 <= i < |r| ensures !Falsy(r[i]) {
          assert r[i] in multiset(paths);
        }
      }
      r
    else paths
  }

  /** Every parsed name is "/"-separated segments that each start with no
      lower-case letter, and holds neither a colon nor a backslash. */
  lemma ParsedNamesShape(names: string, sort: bool)
    ensures forall x :: x in ParseClassNames(names, sort) ==>
              && ':' !in x && '\\' !in x
              && forall seg :: seg in Split(x, '/') ==> seg == "" || !IsLower(seg[0])
  {
    forall x | x in ParseClassNames(names, sort)
      ensures ':' !in x && '\\' !in x
      ensures forall seg :: seg in Split(x, '/') ==> seg == "" || !IsLower(seg[0])
    {
      ParsedNameShape(names, sort, x);
    }
  }

  lemma ParsedNameShape(names: string, sort: bool, x: string)
    requires x in ParseClassNames(names, sort)
    ensures ':' !in x && '\\' !in x
    ensures forall seg :: seg in Split(x, '/') ==> seg == "" || !IsLower(seg[0])
  {
    assert x in multiset(ParseClassNames(names, sort));
    ClassPathsShape(names, x);
  }

  lemma ClassPathsShape(names: string, x: string)
    requires x in ClassPaths(names)
    ensures ':' !in x && '\\' !in x
    ensures forall seg :: seg in Split(x, '/') ==> seg == "" || !IsLower(seg[0])
  {
    var pieces := SplitOn(names, ListSeparators);
    var k :| 0 <= k < |pieces| && x == ClassPath(pieces[k]);
    ClassPathShape(pieces[k]);
  }

  /** The segments of one entry before they are joined. */
  function ClassSegments(piece: string): (parts: seq<string>)
    ensures |parts| >= 1
    ensures forall i :: 0 <= i < |parts| ==> ':' !in parts[i] && '\\' !in parts[i] && '/' !in parts[i]
    ensures forall i :: 0 <= i < |parts| ==> parts[i] == "" || !IsLower(parts[i][0])
  {
    var t := Trim(piece);
    var segments := SplitOn(t, NameSeparators);
    SplitOnPieces(t, NameSeparators);
    var parts := seq(|segments|, i requires 0 <= i < |segments| => Ucfirst(segments[i]));
    forall i | 0 <= i < |parts|
      ensures ':' !in parts[i] && '\\' !in parts[i] && '/' !in parts[i]
      ensures parts[i] == "" || !IsLower(parts[i][0])
    {
      UcfirstNameFree(segments[i]);
    }
    parts
  }

  /** A segment free of name separators stays free of them once capitalised,
      and no longer starts with a lower-case letter. */
  lemma UcfirstNameFree(seg: string)
    requires forall j :: 0 <= j < |seg| ==> seg[j] !in NameSeparators
    ensures ':' !in Ucfirst(seg) && '\\' !in Ucfirst(seg) && '/' !in Ucfirst(seg)
    ensures Ucfirst(seg) == "" || !IsLower(Ucfirst(seg)[0])
  {
    UcfirstKeepsFree(seg, ':');
    UcfirstKeepsFree(seg, '\\');
    UcfirstKeepsFree(seg, '/');
  }

  lemma UcfirstKeepsFree(seg: string, c: char)
    requires !IsUpper(c) && c !in seg
    ensures c !in Ucfirst(seg)
  {
    if seg != "" {
      assert Ucfirst(seg) == [UpperChar(seg[0])] + seg[1..];
      assert seg == [seg[0]] + seg[1..];
    }
  }

  lemma ClassPathShape(piece: string)
    ensures ':' !in ClassPath(piece) && '\\' !in ClassPath(piece)
    ensures forall seg :: seg in Split(ClassPath(piece), '/') ==> seg == "" || !IsLower(seg[0])
  {
    var parts := ClassSegments(piece);
    assert ClassPath(piece) == Join(parts, "/");
    SplitJoin(parts, '/');
    JoinFree(parts, "/", ':');
    JoinFree(parts, "/", '\\');
  }

  /** A join of pieces free of `c`, with a separator free of `c`, is free of `c`. */
  lemma {:induction false} JoinFree(parts: seq<string>, sep: string, c: char)
    requires c !in sep
    requires forall i :: 0 <= i < |parts| ==> c !in parts[i]
    ensures c !in Join(parts, sep)
    decreases |parts|
  {
    if |parts| > 1 {
      JoinFree(parts[1..], sep, c);
    }
  }
}
