// Where the console application looks for commands, and the class name it
// derives from every file it finds there.

module Discovery {
  import opened Text
  import opened Maker

  // ---------------------------------------------------------------------
  // Command locations

  /** An installed component: its namespace and its namespace root paths. */
  datatype Component = Component(namespace: string, roots: seq<string>)

  /** A directory to scan, and the namespace its files live in. */
  datatype Location = Location(path: string, namespace: string)

  const CommonPath: string := "vendor/nails/common/src/Common/Console/Command/"
  const CommonNamespace: string := "Nails\\Common\\Console\\Command"
  const CommandDir: string := "/Console/Command/"
  const CommandNamespace: string := "Console\\Command"

  /** The location a component's namespace root contributes. */
  function RootLocation(c: Component, root: string): Location {
    Location(root + CommandDir, c.namespace + CommandNamespace)
  }

  /** The locations of every root of every component, in order. */
  function RootLocations(components: seq<Component>): seq<Location>
    decreases |components|
  {
    if components == [] then []
    else
      var c := components[0];
      seq(|c.roots|, j requires 0 <= j < |c.roots| => RootLocation(c, c.roots[j]))
        + RootLocations(components[1..])
  }

  /** The locations searched: the common module first, then each root. */
  function Locations(appPath: string, components: seq<Component>): seq<Location> {
    [Location(appPath + CommonPath, CommonNamespace)] + RootLocations(components)
  }

  /** How many roots the components before index `i` have. */
  function RootsBefore(components: seq<Component>, i: nat): nat
    requires i <= |components|
  {
    if i == 0 then 0 else RootsBefore(components, i - 1) + |components[i - 1].roots|
  }

  lemma {:induction false} RootsBeforeShift(components: seq<Component>, i: nat)
    requires 1 <= i <= |components|
    ensures RootsBefore(components, i)
         == |components[0].roots| + RootsBefore(components[1..], i - 1)
  {
    if i > 1 {
      RootsBeforeShift(components, i - 1);
    }
  }

  /** Root `j` of component `i` is searched at its own place, after the
      common location and every earlier root. */
  lemma {:induction false} RootLocationAt(components: seq<Component>, i: nat, j: nat)
    requires i < |components| && j < |components[i].roots|
    ensures |RootLocations(components)| >= RootsBefore(components, i + 1)
    ensures RootLocations(components)[RootsBefore(components, i) + j]
         == RootLocation(components[i], components[i].roots[j])
    decreases i
  {
    var first := seq(|components[0].roots|,
                     j requires 0 <= j < |components[0].roots| => RootLocation(components[0], components[0].roots[j]));
    assert RootLocations(components) == first + RootLocations(components[1..]);
    if i > 0 {
      RootLocationAt(components[1..], i - 1, j);
      RootsBeforeShift(components, i);
      RootsBeforeShift(components, i + 1);
    }
  }

  /** There is one location per root, after the common one. */
  lemma {:induction false} LocationCount(components: seq<Component>)
    ensures |RootLocations(components)| == RootsBefore(components, |components|)
    decreases |components|
  {
    if components != [] {
      LocationCount(components[1..]);
      RootsBeforeShift(components, |components|);
    }
  }

  /** The common module's location comes first; root `j` of component `i`
      comes at its place in component order, under "Console/Command". */
  lemma LocationsShape(appPath: string, components: seq<Component>, i: nat, j: nat)
    requires i < |components| && j < |components[i].roots|
    ensures |Locations(appPath, components)| == 1 + RootsBefore(components, |components|)
    ensures Locations(appPath, components)[0] == Location(appPath + CommonPath, CommonNamespace)
    ensures 1 + RootsBefore(components, i) + j < |Locations(appPath, components)|
    ensures Locations(appPath, components)[1 + RootsBefore(components, i) + j]
         == Location(components[i].roots[j] + "/Console/Command/",
                     components[i].namespace + "Console\\Command")
  {
    LocationCount(components);
    RootLocationAt(components, i, j);
  }

  // ---------------------------------------------------------------------
  // pathinfo

  /** The index of the last `c` in `s`, or -1. */
  function LastIndex(s: string, c: char): (r: int)
    ensures -1 <= r < |s|
    ensures r == -1 ==> c !in s
    ensures r >= 0 ==> s[r] == c && c !in s[r + 1..]
  {
    if s == "" then -1
    else if s[|s| - 1] == c then |s| - 1
    else
      var r := LastIndex(s[..|s| - 1], c);
      assert s == s[..|s| - 1] + [s[|s| - 1]];
      assert r >= 0 ==> s[r + 1..] == s[..|s| - 1][r + 1..] + [s[|s| - 1]];
      r
  }

  /** pathinfo's "dirname": trailing "/" dropped, then the last component;
      "." when nothing is left and "/" for the root. An empty path has no
      "dirname" at all; the class name built from it is the same as for
      ".", so it is given as ".". */
  function Dirname(path: string): string {
    var p := TrimRightChar(path, '/');
    if path == "" then "."
    else if p == "" then "/"
    else
      var k := LastIndex(p, '/');
      if k == -1 then "."
      else
        var d := TrimRightChar(p[..k], '/');
        if d == "" then "/" else d
  }

  /** pathinfo's "basename": the last component, trailing "/" dropped. */
  function Basename(path: string): string {
    var p := TrimRightChar(path, '/');
    p[LastIndex(p, '/') + 1..]
  }

  /** A basename up to its last ".". */
  function Stem(base: string): string {
    var k := LastIndex(base, '.');
    if k == -1 then base else base[..k]
  }

  /** pathinfo's "filename": the basename without its extension. */
  function Filename(path: string): string {
    Stem(Basename(path))
  }

  /** The directory parts the class name takes from a file path. */
  function DirParts(file: string): seq<string> {
    if Dirname(file) != "." then Split(Dirname(file), '/') else []
  }

  /** The class a found file is taken to declare: the namespace, the
      directories and the file name joined by "\", empty and "0" parts
      dropped. */
  function ClassNameOf(namespace: string, file: string): string {
    Join(Truthy([namespace] + DirParts(file) + [Filename(file)]), "\\")
  }

  /** A path component as a directory listing yields one. */
  predicate IsComponent(s: string) {
    s != "" && '/' !in s
  }

  lemma LastIndexAfter(a: string, b: string, c: char)
    requires c !in b
    ensures LastIndex(a + [c] + b, c) == |a|
    decreases |b|
  {
    if b != "" {
      var s := a + [c] + b;
      assert s[..|s| - 1] == a + [c] + b[..|b| - 1];
      LastIndexAfter(a, b[..|b| - 1], c);
    }
  }

  /** pathinfo of a file name without directory: the directory is "." and
      the basename is the name itself. */
  lemma PathInfoTop(name: string)
    requires IsComponent(name)
    ensures Dirname(name) == "." && Basename(name) == name
  {
    TrimFree(name);
  }

  /** pathinfo of "dir/name": the directory is "dir" and the basename is
      "name". */
  lemma PathInfoNested(dir: string, name: string)
    requires dir != "" && dir[|dir| - 1] != '/'
    requires IsComponent(name)
    ensures Dirname(dir + "/" + name) == dir && Basename(dir + "/" + name) == name
  {
    var path := dir + "/" + name;
    TrimFree(path);
    LastIndexAfter(dir, name, '/');
    assert path[..|dir|] == dir;
    assert path[|dir| + 1..] == name;
    TrimFree(dir);
  }

  /** Components joined by "/" spell "." only when the one component is ".". */
  lemma JoinNotDot(parts: seq<string>)
    requires parts != [] && parts != ["."]
    requires forall i :: 0 <= i < |parts| ==> IsComponent(parts[i])
    ensures Join(parts, "/") != "."
  {
    if |parts| > 1 {
      assert Join(parts, "/") == parts[0] + "/" + Join(parts[1..], "/");
    }
  }

  /** A file "d1/…/dn/f" below the location has directory parts d1 … dn. */
  lemma DirPartsNested(dirs: seq<string>, name: string)
    requires dirs != [] && dirs != ["."]
    requires forall i :: 0 <= i < |dirs| ==> IsComponent(dirs[i])
    requires IsComponent(name)
    ensures DirParts(Join(dirs, "/") + "/" + name) == dirs
    ensures Filename(Join(dirs, "/") + "/" + name) == Stem(name)
  {
    var d := Join(dirs, "/");
    JoinEndsWith(dirs, "/");
    assert IsComponent(dirs[|dirs| - 1]);
    PathInfoNested(d, name);
    JoinNotDot(dirs);
    SplitJoin(dirs, '/');
  }

  /** The directory parts of "d1/…/dn/f" are d1 … dn, and its file name is
      the stem of f. */
  lemma DirPartsOfComponents(segs: seq<string>)
    requires segs != []
    requires forall i :: 0 <= i < |segs| ==> IsComponent(segs[i])
    requires segs[..|segs| - 1] != ["."]
    ensures DirParts(Join(segs, "/")) == segs[..|segs| - 1]
    ensures Filename(Join(segs, "/")) == Stem(segs[|segs| - 1])
  {
    if |segs| == 1 {
      PathInfoTop(segs[0]);
    } else {
      NestedParts(segs);
    }
  }

  lemma NestedParts(segs: seq<string>)
    requires |segs| > 1
    requires forall i :: 0 <= i < |segs| ==> IsComponent(segs[i])
    requires segs[..|segs| - 1] != ["."]
    ensures DirParts(Join(segs, "/")) == segs[..|segs| - 1]
    ensures Filename(Join(segs, "/")) == Stem(segs[|segs| - 1])
  {
    var init := segs[..|segs| - 1];
    var last := segs[|segs| - 1];
    JoinInit(segs, "/");
    assert forall i :: 0 <= i < |init| ==> IsComponent(init[i]);
    DirPartsNested(init, last);
  }

  /** The class name of a file whose directories are d1 … dn (none of them
      "" or "0") and whose file name is f is `ns\d1\…\dn\f`: every directory
      becomes one namespace level, in order. A falsy namespace or file name
      is left out. */
  lemma ClassNameOfParts(namespace: string, file: string, dirs: seq<string>)
    requires DirParts(file) == dirs
    requires forall i :: 0 <= i < |dirs| ==> !Falsy(dirs[i])
    ensures ClassNameOf(namespace, file)
         == Join(Truthy([namespace]) + dirs + Truthy([Filename(file)]), "\\")
  {
    TruthyParts(namespace, dirs, Filename(file));
  }

  /** Filtering the parts of a class name keeps truthy directories. */
  lemma TruthyParts(namespace: string, dirs: seq<string>, filename: string)
    requires forall i :: 0 <= i < |dirs| ==> !Falsy(dirs[i])
    ensures Truthy([namespace] + dirs + [filename]) == Truthy([namespace]) + dirs + Truthy([filename])
  {
    TruthyAppend([namespace] + dirs, [filename]);
    TruthyAppend([namespace], dirs);
    TruthyKeeps(dirs);
  }

  /** A class found in a location lies in that location's namespace. */
  lemma {:induction false} InNamespace(namespace: string, file: string)
    requires !Falsy(namespace)
    ensures StartsWith(ClassNameOf(namespace, file), namespace)
  {
    NamespaceFirst(namespace, DirParts(file), Filename(file));
  }

  lemma {:induction false} NamespaceFirst(namespace: string, dirs: seq<string>, name: string)
    requires !Falsy(namespace)
    ensures StartsWith(Join(Truthy([namespace] + dirs + [name]), "\\"), namespace)
  {
    var rest := dirs + [name];
    assert [namespace] + dirs + [name] == [namespace] + rest;
    TruthyHead(namespace, rest);
    JoinStartsWith([namespace] + Truthy(rest), "\\");
  }

  lemma {:induction false} TruthyHead(x: string, rest: seq<string>)
    requires !Falsy(x)
    ensures Truthy([x] + rest) == [x] + Truthy(rest)
  {
    assert ([x] + rest)[1..] == rest;
  }

  lemma {:induction false} JoinStartsWith(parts: seq<string>, sep: string)
    requires parts != []
    ensures StartsWith(Join(parts, sep), parts[0])
  {
  }

  /** The class name ends with the file's name, when that is not dropped. */
  lemma NamedAfterFile(namespace: string, file: string)
    requires !Falsy(Filename(file))
    ensures EndsWith(ClassNameOf(namespace, file), Filename(file))
  {
    var front := [namespace] + DirParts(file);
    TruthyAppend(front, [Filename(file)]);
    assert Truthy([Filename(file)]) == [Filename(file)];
    JoinEndsWith(Truthy(front) + [Filename(file)], "\\");
  }

  /** When no `\`-segment of the namespace is "" or "0" and no directory or
      file name holds a "\", no `\`-segment of the class name is "" or "0":
      the falsy parts are dropped rather than left as empty levels. */
  lemma {:induction false} NoEmptyPart(namespace: string, file: string)
    requires forall seg :: seg in Split(namespace, '\\') ==> !Falsy(seg)
    requires forall i :: 0 <= i < |DirParts(file)| ==> '\\' !in DirParts(file)[i]
    requires '\\' !in Filename(file)
    ensures forall seg :: seg in Split(ClassNameOf(namespace, file), '\\') ==> !Falsy(seg)
  {
    NoEmptyLevels(namespace, DirParts(file), Filename(file));
  }

  lemma {:induction false} NoEmptyLevels(namespace: string, dirs: seq<string>, name: string)
    requires forall seg :: seg in Split(namespace, '\\') ==> !Falsy(seg)
    requires forall i :: 0 <= i < |dirs| ==> '\\' !in dirs[i]
    requires '\\' !in name
    ensures forall seg :: seg in Split(Join(Truthy([namespace] + dirs + [name]), "\\"), '\\') ==> !Falsy(seg)
  {
    var items := dirs + [name];
    assert [namespace] + dirs + [name] == [namespace] + items;
    assert forall i :: 0 <= i < |items| ==> '\\' !in items[i] by {
      forall i | 0 <= i < |items| ensures '\\' !in items[i] {
        if i < |dirs| {
          assert items[i] == dirs[i];
        }
      }
    }
    NoEmptyLevel(namespace, items);
  }

  /** The same for the namespace followed by any parts free of "\". */
  lemma {:induction false} NoEmptyLevel(namespace: string, items: seq<string>)
    requires forall seg :: seg in Split(namespace, '\\') ==> !Falsy(seg)
    requires forall i :: 0 <= i < |items| ==> '\\' !in items[i]
    ensures forall seg :: seg in Split(Join(Truthy([namespace] + items), "\\"), '\\') ==> !Falsy(seg)
  {
    FalsySplit(namespace);
    assert Split(namespace, '\\')[0] in Split(namespace, '\\');
    var rest := Truthy(items);
    TruthyHead(namespace, items);
    if rest != [] {
      assert Join([namespace] + rest, "\\") == namespace + "\\" + Join(rest, "\\");
      SplitSep(namespace, Join(rest, "\\"), '\\');
      forall i | 0 <= i < |rest| ensures '\\' !in rest[i] {
        assert rest[i] in items;
      }
      SplitJoin(rest, '\\');
    }
  }

  /** "" and "0" hold no "\", so each splits into itself. */
  lemma FalsySplit(s: string)
    ensures Falsy(s) ==> Split(s, '\\') == [s]
  {
    if Falsy(s) {
      SplitOfFree(s, '\\');
    }
  }

  // ---------------------------------------------------------------------
  // Scanning the locations

  /** The rule naming the class of a file found under a namespace. */
  type Naming = (string, string) -> string

  /** The classes of the files found in a location of namespace `namespace`,
      in listing order. */
  function ClassesIn(namespace: string, files: seq<string>, classOf: Naming): (r: seq<string>)
    ensures |r| == |files|
    ensures forall k :: 0 <= k < |files| ==> r[k] == classOf(namespace, files[k])
  {
    if files == [] then []
    else [classOf(namespace, files[0])] + ClassesIn(namespace, files[1..], classOf)
  }

  /** Every location's classes in turn; `listing` stands for the recursive
      directory map of a path. Nothing is de-duplicated or sorted. */
  function Discover(locs: seq<Location>, listing: string -> seq<string>, classOf: Naming): seq<string>
    decreases |locs|
  {
    if locs == [] then []
    else ClassesIn(locs[0].namespace, listing(locs[0].path), classOf) + Discover(locs[1..], listing, classOf)
  }

  /** How many files the locations before index `i` list. */
  function FilesBefore(locs: seq<Location>, listing: string -> seq<string>, i: nat): nat
    requires i <= |locs|
  {
    if i == 0 then 0 else FilesBefore(locs, listing, i - 1) + |listing(locs[i - 1].path)|
  }

  lemma {:induction false} FilesBeforeShift(locs: seq<Location>, listing: string -> seq<string>, i: nat)
    requires 1 <= i <= |locs|
    ensures FilesBefore(locs, listing, i)
         == |listing(locs[0].path)| + FilesBefore(locs[1..], listing, i - 1)
  {
    if i > 1 {
      FilesBeforeShift(locs, listing, i - 1);
    }
  }

  /** Scanning two runs of locations is scanning each in turn. */
  lemma {:induction false} DiscoverAppend(a: seq<Location>, b: seq<Location>,
                                          listing: string -> seq<string>, classOf: Naming)
    ensures Discover(a + b, listing, classOf) == Discover(a, listing, classOf) + Discover(b, listing, classOf)
    decreases |a|
  {
    if a == [] {
      assert a + b == b;
    } else {
      assert (a + b)[1..] == a[1..] + b;
      DiscoverAppend(a[1..], b, listing, classOf);
    }
  }

  /** One class per listed file. */
  lemma {:induction false} DiscoverCount(locs: seq<Location>, listing: string -> seq<string>, classOf: Naming)
    ensures |Discover(locs, listing, classOf)| == FilesBefore(locs, listing, |locs|)
    decreases |locs|
  {
    if locs != [] {
      DiscoverCount(locs[1..], listing, classOf);
      FilesBeforeShift(locs, listing, |locs|);
    }
  }

  /** File `k` of location `i` yields the class at its place in location
      order, named from that location's namespace. */
  lemma {:induction false} DiscoverAt(locs: seq<Location>, listing: string -> seq<string>, classOf: Naming,
                                      i: nat, k: nat)
    requires i < |locs| && k < |listing(locs[i].path)|
    ensures |Discover(locs, listing, classOf)| > FilesBefore(locs, listing, i) + k
    ensures Discover(locs, listing, classOf)[FilesBefore(locs, listing, i) + k]
         == classOf(locs[i].namespace, listing(locs[i].path)[k])
    decreases i
  {
    if i > 0 {
      DiscoverAt(locs[1..], listing, classOf, i - 1, k);
      FilesBeforeShift(locs, listing, i);
    }
  }

  /** The command classes the application loads, before reflection. */
  function CommandClasses(appPath: string, components: seq<Component>, listing: string -> seq<string>)
    : seq<string>
  {
    Discover(Locations(appPath, components), listing, ClassNameOf)
  }

  /** The common module's commands come first, named in its namespace. */
  lemma CommonFirst(appPath: string, components: seq<Component>, listing: string -> seq<string>, k: nat)
    requires k < |listing(appPath + CommonPath)|
    ensures |CommandClasses(appPath, components, listing)| > k
    ensures CommandClasses(appPath, components, listing)[k]
         == ClassNameOf(CommonNamespace, listing(appPath + CommonPath)[k])
  {
    DiscoverAt(Locations(appPath, components), listing, ClassNameOf, 0, k);
  }

  /** The inner loop of the boot: one class name per listed file. */
  method NameAll(namespace: string, files: seq<string>, classOf: Naming) returns (found: seq<string>)
    ensures found == ClassesIn(namespace, files, classOf)
  {
    found := [];
    var k := 0;
    while k < |files|
      invariant 0 <= k <= |files|
      invariant found == ClassesIn(namespace, files[..k], classOf)
    {
      found := found + [classOf(namespace, files[k])];
      k := k + 1;
    }
    assert files[..k] == files;
  }

  /** The loop of the application's boot: the classes of each location are
      appended in turn. */
  method LoadCommands(locs: seq<Location>, listing: string -> seq<string>, classOf: Naming)
    returns (classes: seq<string>)
    ensures classes == Discover(locs, listing, classOf)
    ensures |classes| == FilesBefore(locs, listing, |locs|)
  {
    classes := [];
    var i := 0;
    while i < |locs|
      invariant 0 <= i <= |locs|
      invariant classes == Discover(locs[..i], listing, classOf)
    {
      var found := NameAll(locs[i].namespace, listing(locs[i].path), classOf);
      DiscoverAppend(locs[..i], [locs[i]], listing, classOf);
      assert locs[..i + 1] == locs[..i] + [locs[i]];
      classes := classes + found;
      i := i + 1;
    }
    assert locs[..i] == locs;
    DiscoverCount(locs, listing, classOf);
  }
}
