/** `make:console`: from the comma-separated command names to the class,
    namespace, command string and file of each new command, and the policy
    that creates those files. */
module MakeConsole {
  import opened Text
  import opened Order
  import opened Results
  import opened Maker

  // ---------------------------------------------------------------------
  // Names

  /** One entry of COMMAND_NAME: trimmed, and every "/"-separated part given
      a leading capital. */
  function NormaliseName(piece: string): string {
    Join(UcfirstAll(Split(Ucfirst(Trim(piece)), '/')), "/")
  }

  /** Every entry of COMMAND_NAME, normalised, in input order. */
  function Entries(argument: string): seq<string> {
    var pieces := Split(argument, ',');
    seq(|pieces|, i requires 0 <= i < |pieces| => NormaliseName(pieces[i]))
  }

  /** The commands to create: each entry normalised, empty ones dropped, in
      ascending order. */
  function CommandNames(argument: string): (names: seq<string>)
    ensures Sorted(names)
    ensures multiset(names) == multiset(Truthy(Entries(argument)))
    ensures forall x :: x in names <==> x in Entries(argument) && !Falsy(x)
  {
    var names := Sort(Truthy(Entries(argument)));
    assert forall x :: x in names <==> x in Truthy(Entries(argument)) by {
      forall x ensures x in names <==> x in Truthy(Entries(argument)) {
        assert x in names <==> x in multiset(names);
      }
    }
    names
  }

  /** Normalising an entry trims it and capitalises its first character and
      every character just after a "/"; nothing else changes. */
  lemma NormaliseNameShape(piece: string)
    ensures NormaliseName(piece) == CapAfter(Trim(piece), '/')
  {
    var t := Trim(piece);
    CapitalisedPieces(Ucfirst(t), '/');
    CapAfterUcfirst(t, '/');
  }

  /** Capitalising the first character first makes no difference. */
  lemma CapAfterUcfirst(t: string, c: char)
    requires !IsLower(c) && !IsUpper(c)
    ensures CapAfter(Ucfirst(t), c) == CapAfter(t, c)
  {
    var u := Ucfirst(t);
    forall i | 0 <= i < |t| ensures CapAfter(u, c)[i] == CapAfter(t, c)[i] {
      if i == 1 {
        assert u[0] == c <==> t[0] == c;
      } else if i > 1 {
        assert u[i - 1] == t[i - 1];
      }
    }
  }

  /** The name's ":"-separated bits, each given a leading capital: joined
      again with ":" they give the name with a capital after every ":". */
  function Bits(name: string): (bits: seq<string>)
    ensures |bits| >= 1 && |bits| == |Split(name, ':')|
    ensures forall i :: 0 <= i < |bits| ==> ':' !in bits[i]
    ensures Join(bits, ":") == CapAfter(name, ':')
  {
    var parts := Split(name, ':');
    SplitOnPieces(name, {':'});
    var bits := UcfirstAll(parts);
    forall i | 0 <= i < |bits| ensures ':' !in bits[i] {
      UcfirstKeepsFree(parts[i], ':');
    }
    CapitalisedPieces(name, ':');
    bits
  }

  /** `generateClassName`: the last bit. */
  function ClassNameOf(bits: seq<string>): string
    requires bits != []
  {
    bits[|bits| - 1]
  }

  const BaseNamespace: seq<string> := ["App", "Console", "Command"]

  /** `generateNamespace`: `App\Console\Command` and every bit but the last. */
  function NamespaceOf(bits: seq<string>): string
    requires bits != []
  {
    Join(BaseNamespace + bits[..|bits| - 1], "\\")
  }

  function FullClassName(bits: seq<string>): string
    requires bits != []
  {
    NamespaceOf(bits) + "\\" + ClassNameOf(bits)
  }

  const CommandPrefix: string := "app:console:command:"

  /** The command string: the full class name lower-cased, "\" turned into
      ":", and every `app:console:command:` removed. */
  function CommandOf(bits: seq<string>): string
    requires bits != []
  {
    StripPrefixes(Lower(Colons(FullClassName(bits))))
  }

  /** Every "\" turned into ":". */
  function Colons(s: string): string {
    ReplaceAll(s, "\\", ":")
  }

  /** Every `app:console:command:` removed. */
  function StripPrefixes(s: string): string {
    ReplaceAll(s, CommandPrefix, "")
  }

  /** `generateFilePath`: APP_PATH, the bits but the last, and the class
      file, each stripped of trailing "/" and joined with "/". */
  function FilePath(appPath: string, bits: seq<string>): string
    requires bits != []
  {
    var parts := [appPath] + bits[..|bits| - 1] + [ClassNameOf(bits) + ".php"];
    Join(seq(|parts|, i requires 0 <= i < |parts| => TrimRightChar(parts[i], '/')), "/")
  }

  // ---------------------------------------------------------------------
  // Facts about the names

  /** The full class name is the base namespace and all the bits. */
  lemma FullClassNameJoins(bits: seq<string>)
    requires bits != []
    ensures FullClassName(bits) == Join(BaseNamespace + bits, "\\")
  {
    JoinSnoc(BaseNamespace + bits[..|bits| - 1], ClassNameOf(bits), "\\");
    assert BaseNamespace + bits[..|bits| - 1] + [ClassNameOf(bits)] == BaseNamespace + bits;
  }

  /** Turning "\" into ":" works on each side of a concatenation. */
  lemma ColonsAppend(a: string, b: string)
    ensures Colons(a + b) == Colons(a) + Colons(b)
  {
    ReplaceCharPointwise(a + b, '\\', ':');
    ReplaceCharPointwise(a, '\\', ':');
    ReplaceCharPointwise(b, '\\', ':');
    assert Colons(a + b) == Colons(a) + Colons(b) by {
      forall k | 0 <= k < |a + b| ensures Colons(a + b)[k] == (Colons(a) + Colons(b))[k] {
        if k >= |a| {
          assert (a + b)[k] == b[k - |a|];
        }
      }
    }
  }

  /** Once every "\" is a ":", joining with "\" or with ":" gives the same. */
  lemma {:induction false} ColonsJoin(parts: seq<string>)
    ensures Colons(Join(parts, "\\")) == Colons(Join(parts, ":"))
    decreases |parts|
  {
    if |parts| > 1 {
      ColonsJoin(parts[1..]);
      ColonsAppend(parts[0] + "\\", Join(parts[1..], "\\"));
      ColonsAppend(parts[0], "\\");
      ColonsAppend(parts[0] + ":", Join(parts[1..], ":"));
      ColonsAppend(parts[0], ":");
      ReplaceCharPointwise("\\", '\\', ':');
      ReplaceCharPointwise(":", '\\', ':');
    }
  }

  lemma LowerConcat(a: string, b: string)
    ensures Lower(a + b) == Lower(a) + Lower(b)
  {
  }

  lemma LowerBase()
    ensures Lower("App:Console:Command:") == CommandPrefix
  {
    LowerPointwise("App:Console:Command:", CommandPrefix);
  }

  lemma LowerPointwise(a: string, b: string)
    requires |a| == |b| && forall i :: 0 <= i < |a| ==> LowerChar(a[i]) == b[i]
    ensures Lower(a) == b
  {
  }

  lemma JoinBase(bits: seq<string>)
    requires bits != []
    ensures Join(BaseNamespace + bits, ":") == "App:Console:Command:" + Join(bits, ":")
  {
    var all := BaseNamespace + bits;
    assert all[1..][1..][1..] == bits;
    assert Join(all[1..][1..], ":") == "Command" + ":" + Join(bits, ":");
    assert Join(all[1..], ":") == "Console" + ":" + Join(all[1..][1..], ":");
    assert Join(all, ":") == "App" + ":" + Join(all[1..], ":");
  }

  /** The full class name with ":" for "\", lower-cased, starts with the prefix. */
  lemma {:induction false} LoweredFullName(bits: seq<string>)
    requires bits != []
    ensures Lower(Colons(FullClassName(bits))) == CommandPrefix + Lower(Colons(Join(bits, ":")))
  {
    ColonsFullName(bits);
    LowerAfterBase(Colons(FullClassName(bits)), Colons(Join(bits, ":")));
  }

  lemma LowerAfterBase(s: string, rest: string)
    requires s == "App:Console:Command:" + rest
    ensures Lower(s) == CommandPrefix + Lower(rest)
  {
    LowerConcat("App:Console:Command:", rest);
    LowerBase();
  }

  /** With ":" for "\", the full class name is `App:Console:Command:`
      followed by the bits joined by ":", in which every "\" a bit holds
      is a ":" as well. */
  lemma {:induction false} ColonsFullName(bits: seq<string>)
    requires bits != []
    ensures Colons(FullClassName(bits)) == "App:Console:Command:" + Colons(Join(bits, ":"))
  {
    var b := Join(bits, ":");
    calc {
      Colons(FullClassName(bits));
      { FullClassNameJoins(bits); }
      Colons(Join(BaseNamespace + bits, "\\"));
      { ColonsJoin(BaseNamespace + bits); }
      Colons(Join(BaseNamespace + bits, ":"));
      { JoinBase(bits); }
      Colons("App:Console:Command:" + b);
      { ColonsAppend("App:Console:Command:", b); ColonsFree("App:Console:Command:"); }
      "App:Console:Command:" + Colons(b);
    }
  }

  lemma ColonsFree(s: string)
    requires '\\' !in s
    ensures Colons(s) == s
  {
    NoCharNoOccurrence(s, '\\');
    ReplaceAbsent(s, "\\", ":");
  }

  lemma NoCharNoOccurrence(s: string, c: char)
    requires c !in s
    ensures !Contains(s, [c])
  {
    forall i | 0 <= i <= |s| ensures !OccursAt(s, [c], i) {
      if i < |s| {
        assert s[i..i + 1] == [s[i]];
      }
    }
  }

  lemma StripPrefix(key: string, rest: string)
    requires key != "" && FindFrom(rest, key, 0) == -1
    ensures ReplaceAll(key + rest, key, "") == rest
  {
    assert !Contains(rest, key);
    ReplaceHit(key + rest, key, "");
    assert (key + rest)[|key|..] == rest;
    ReplaceAbsent(rest, key, "");
  }

  /** A single leading "app:console:command:" is removed when it does not
      occur again. */
  lemma StripCommandPrefix(rest: string)
    requires FindFrom(rest, CommandPrefix, 0) == -1
    ensures StripPrefixes(CommandPrefix + rest) == rest
  {
    StripPrefix(CommandPrefix, rest);
  }

  /** The command string is the bits joined by ":", every "\" in them a
      ":" too, lower-cased, as long as the prefix does not occur again. */
  lemma {:induction false} CommandIsLoweredBits(bits: seq<string>, lowered: string)
    requires bits != []
    requires lowered == Lower(Colons(Join(bits, ":")))
    requires FindFrom(lowered, CommandPrefix, 0) == -1
    ensures CommandOf(bits) == lowered
  {
    LoweredFullName(bits);
    assert CommandOf(bits) == StripPrefixes(CommandPrefix + lowered);
    StripCommandPrefix(lowered);
  }

  /** In terms of the name itself: the command string is the name
      lower-cased with every "\" turned into ":", whatever the case of its
      letters, as long as the prefix does not occur again. */
  lemma {:induction false} CommandOfName(name: string)
    ensures FindFrom(Lower(Colons(name)), CommandPrefix, 0) == -1 ==> CommandOf(Bits(name)) == Lower(Colons(name))
  {
    if FindFrom(Lower(Colons(name)), CommandPrefix, 0) == -1 {
      LowerColonsCapAfter(name);
      CommandIsLoweredBits(Bits(name), Lower(Colons(name)));
    }
  }

  /** Capitals added after ":" vanish once everything is lower-cased. */
  lemma LowerColonsCapAfter(name: string)
    ensures Lower(Colons(CapAfter(name, ':'))) == Lower(Colons(name))
  {
    var c := CapAfter(name, ':');
    ReplaceCharPointwise(c, '\\', ':');
    ReplaceCharPointwise(name, '\\', ':');
    forall i | 0 <= i < |name| ensures Lower(Colons(c))[i] == Lower(Colons(name))[i] {
      assert c[i] == '\\' <==> name[i] == '\\';
    }
  }

  /** The file path ends in the class file, and starts with APP_PATH,
      stripped of its trailing "/", and a "/". */
  lemma FilePathShape(appPath: string, bits: seq<string>)
    requires bits != []
    ensures var r, app := FilePath(appPath, bits), TrimRightChar(appPath, '/');
      && EndsWith(r, ClassNameOf(bits) + ".php")
      && StartsWith(r, app + "/")
      && (app == "" || app[|app| - 1] != '/')
  {
    var parts := [appPath] + bits[..|bits| - 1] + [ClassNameOf(bits) + ".php"];
    var trimmed := seq(|parts|, i requires 0 <= i < |parts| => TrimRightChar(parts[i], '/'));
    var file := ClassNameOf(bits) + ".php";
    assert TrimRightChar(file, '/') == file by {
      TrimFree(file);
    }
    assert trimmed[|trimmed| - 1] == file;
    JoinEndsWith(trimmed, "/");
    assert trimmed == [trimmed[0]] + trimmed[1..];
    assert Join(trimmed, "/") == trimmed[0] + "/" + Join(trimmed[1..], "/");
  }

  /** The part that follows APP_PATH in the file path. */
  function FirstBelowApp(bits: seq<string>): string
    requires bits != []
  {
    if |bits| > 1 then bits[0] else ClassNameOf(bits) + ".php"
  }

  /** When the part after APP_PATH is not empty and does not start with "/",
      exactly one "/" joins APP_PATH to the rest. */
  lemma FilePathSingleSeparator(appPath: string, bits: seq<string>)
    requires bits != []
    requires FirstBelowApp(bits) != "" && FirstBelowApp(bits)[0] != '/'
    ensures var r, app := FilePath(appPath, bits), TrimRightChar(appPath, '/');
      && |r| > |app| + 1 && r[..|app| + 1] == app + "/" && r[|app| + 1] != '/'
      && (app == "" || app[|app| - 1] != '/')
  {
    var parts := [appPath] + bits[..|bits| - 1] + [ClassNameOf(bits) + ".php"];
    var trimmed := seq(|parts|, i requires 0 <= i < |parts| => TrimRightChar(parts[i], '/'));
    assert parts[1] == FirstBelowApp(bits);
    var first := trimmed[1];
    assert first != "" && first[0] == FirstBelowApp(bits)[0];
    var tail := trimmed[1..];
    assert Join(trimmed, "/") == trimmed[0] + "/" + Join(tail, "/");
    assert StartsWith(Join(tail, "/"), first) by {
      if |tail| > 1 {
        assert Join(tail, "/") == first + "/" + Join(tail[1..], "/");
      }
    }
  }

  /** A name starting with ":" has an empty first bit, so its path holds
      "//" right after APP_PATH. */
  lemma FilePathDoubledSeparator(appPath: string)
    ensures Bits(":foo") == ["", "Foo"]
    ensures FilePath(appPath, Bits(":foo")) == TrimRightChar(appPath, '/') + "//Foo.php"
  {
    BitsOfColonFoo();
    FilePathEmptyBit(appPath, "Foo");
  }

  lemma BitsOfColonFoo()
    ensures Bits(":foo") == ["", "Foo"]
  {
    assert ":foo" == "" + [':'] + "foo";
    SplitSep("", "foo", ':');
    SplitOfFree("", ':');
    SplitOfFree("foo", ':');
    assert Ucfirst("foo") == "Foo" by {
      assert UpperChar('f') == 'F';
    }
    assert UcfirstAll(["", "foo"]) == ["", "Foo"];
  }

  lemma FilePathEmptyBit(appPath: string, cls: string)
    ensures FilePath(appPath, ["", cls]) == TrimRightChar(appPath, '/') + "//" + cls + ".php"
  {
    var bits := ["", cls];
    var file := cls + ".php";
    var parts := [appPath] + bits[..|bits| - 1] + [ClassNameOf(bits) + ".php"];
    assert parts == [appPath, "", file];
    TrimFree(file);
    var trimmed := seq(|parts|, i requires 0 <= i < |parts| => TrimRightChar(parts[i], '/'));
    assert trimmed == [TrimRightChar(appPath, '/'), "", file];
    assert trimmed[1..] == ["", file] && trimmed[1..][1..] == [file];
    assert Join(trimmed[1..], "/") == "" + "/" + file;
  }

  // ---------------------------------------------------------------------
  // Creating the commands

  /** What `createCommand` fills in for one command. */
  datatype Command = Command(
    namespace: string, className: string, fullName: string, command: string, filePath: string)

  /** The class lives in `App\Console\Command` and one namespace level per
      bit; the file is named after the class and lies under APP_PATH; the
      command string is the name lower-cased with ":" for "\". */
  function CommandFor(appPath: string, name: string): (c: Command)
    ensures c.fullName == Join(BaseNamespace + Bits(name), "\\")
    ensures c.fullName == c.namespace + "\\" + c.className
    ensures c.className == Bits(name)[|Bits(name)| - 1]
    ensures EndsWith(c.filePath, c.className + ".php")
    ensures StartsWith(c.filePath, TrimRightChar(appPath, '/') + "/")
    ensures FindFrom(Lower(Colons(name)), CommandPrefix, 0) == -1 ==> c.command == Lower(Colons(name))
  {
    var bits := Bits(name);
    FullClassNameJoins(bits);
    FilePathShape(appPath, bits);
    CommandOfName(name);
    Command(NamespaceOf(bits), ClassNameOf(bits), FullClassName(bits), CommandOf(bits), FilePath(appPath, bits))
  }

  /** The `ConsoleException` raised for an existing file, and a failure of
      `createPath`/`createFile` (`DoesNotExistException` or
      `IsNotWritableException`, which are not `ConsoleException`s). */
  datatype Failure = AlreadyExists(path: string) | CouldNotWrite(path: string)

  predicate IsConsoleException(f: Failure) {
    f.AlreadyExists?
  }

  /** The first command whose file already exists, in creation order. */
  function FirstExisting(cmds: seq<Command>, existing: set<string>): (r: Option<nat>)
    ensures r.None? <==> forall i :: 0 <= i < |cmds| ==> cmds[i].filePath !in existing
    ensures r.Some? ==> r.value < |cmds| && cmds[r.value].filePath in existing
    ensures r.Some? ==> forall i :: 0 <= i < r.value ==> cmds[i].filePath !in existing
    decreases |cmds|
  {
    if cmds == [] then None
    else if cmds[0].filePath in existing then Some(0)
    else match FirstExisting(cmds[1..], existing)
      case None => None
      case Some(k) => Some(k + 1)
  }

  /** One command per name to create, in ascending order of names, each
      with the class `App\Console\Command\<bit>\…` and a file named after
      that class. */
  function Commands(appPath: string, argument: string): (cmds: seq<Command>)
    ensures |cmds| == |CommandNames(argument)|
    ensures forall i :: 0 <= i < |cmds| ==>
              cmds[i].fullName == Join(BaseNamespace + Bits(CommandNames(argument)[i]), "\\")
    ensures forall i :: 0 <= i < |cmds| ==> EndsWith(cmds[i].filePath, cmds[i].className + ".php")
  {
    var names := CommandNames(argument);
    seq(|names|, i requires 0 <= i < |names| => CommandFor(appPath, names[i]))
  }

  /** The commands to create, or the `ConsoleException` for the first one
      whose file exists; nothing is written in either case. */
  function Plan(appPath: string, argument: string, existing: set<string>): (r: Result<seq<Command>, Failure>)
    ensures r.Ok? <==> forall i :: 0 <= i < |Commands(appPath, argument)| ==>
      Commands(appPath, argument)[i].filePath !in existing
    ensures r.Ok? ==> r.value == Commands(appPath, argument)
    ensures r.Err? ==> IsConsoleException(r.error) && r.error.path in existing
  {
    var cmds := Commands(appPath, argument);
    match FirstExisting(cmds, existing)
    case None => Ok(cmds)
    case Some(k) => Err(AlreadyExists(cmds[k].filePath))
  }

  /** The state of the files after writing the commands one by one until one
      cannot be written. */
  datatype Written = Written(files: set<string>, created: seq<string>, failure: Option<Failure>)

  function PathSet(paths: seq<string>): set<string> {
    set p | p in paths
  }

  /** Writes each command's file in turn; a file in `broken` cannot be
      written, which stops the loop. */
  function WriteAll(files: set<string>, cmds: seq<Command>, broken: set<string>): (w: Written)
    ensures w.files == files + PathSet(w.created)
    ensures forall p :: p in w.created ==> p !in broken
    ensures w.failure.None? ==> |w.created| == |cmds|
    ensures w.failure.Some? ==> !IsConsoleException(w.failure.value)
    ensures |w.created| <= |cmds| && forall i :: 0 <= i < |w.created| ==> w.created[i] == cmds[i].filePath
    ensures w.failure.Some? <==> exists i :: 0 <= i < |cmds| && cmds[i].filePath in broken
    decreases |cmds|
  {
    if cmds == [] then Written(files, [], None)
    else if cmds[0].filePath in broken then Written(files, [], Some(CouldNotWrite(cmds[0].filePath)))
    else
      var p := cmds[0].filePath;
      var rest := WriteAll(files + {p}, cmds[1..], broken);
      assert forall i :: 1 <= i < |cmds| ==> cmds[i] == cmds[1..][i - 1];
      Written(rest.files, [p] + rest.created, rest.failure)
  }

  /** The files afterwards and what `createCommand` reports. */
  datatype Run = Run(files: set<string>, outcome: Result<seq<string>, Failure>)

  /** `createCommand` as written: only a `ConsoleException` leads to the
      removal of the files created so far, and creation never raises one. */
  function CreateCommandAsWritten(appPath: string, argument: string, files: set<string>, confirmed: bool,
                                  broken: set<string>): Run
  {
    match Plan(appPath, argument, files)
    case Err(e) => Run(files, Err(e))
    case Ok(cmds) =>
      if !confirmed then Run(files, Ok([]))
      else
        var w := WriteAll(files, cmds, broken);
        match w.failure
        case None => Run(w.files, Ok(w.created))
        case Some(f) =>
          if IsConsoleException(f) then Run(w.files - PathSet(w.created), Err(f))
          else Run(w.files, Err(f))
  }

  /** `createCommand` with every failure during creation removing the files
      created so far before it is re-raised. */
  function CreateCommand(appPath: string, argument: string, files: set<string>, confirmed: bool,
                         broken: set<string>): Run
  {
    match Plan(appPath, argument, files)
    case Err(e) => Run(files, Err(e))
    case Ok(cmds) =>
      if !confirmed then Run(files, Ok([]))
      else
        var w := WriteAll(files, cmds, broken);
        match w.failure
        case None => Run(w.files, Ok(w.created))
        case Some(f) => Run(w.files - PathSet(w.created), Err(f))
  }

  /** Files the loop creates were not there before when no target existed. */
  lemma CreatedAreNew(files: set<string>, cmds: seq<Command>, broken: set<string>)
    requires forall i :: 0 <= i < |cmds| ==> cmds[i].filePath !in files
    ensures var w := WriteAll(files, cmds, broken); w.files - PathSet(w.created) == files
  {
    var w := WriteAll(files, cmds, broken);
    forall p | p in PathSet(w.created) ensures p !in files {
      var i :| 0 <= i < |w.created| && w.created[i] == p;
    }
  }

  /** A loop that does not fail creates every target. */
  lemma CreatedAll(files: set<string>, cmds: seq<Command>, broken: set<string>)
    requires WriteAll(files, cmds, broken).failure.None?
    ensures PathSet(WriteAll(files, cmds, broken).created) == (set i | 0 <= i < |cmds| :: cmds[i].filePath)
  {
    var w := WriteAll(files, cmds, broken);
    forall p | p in (set i | 0 <= i < |cmds| :: cmds[i].filePath) ensures p in PathSet(w.created) {
      var i :| 0 <= i < |cmds| && cmds[i].filePath == p;
      assert w.created[i] == p;
    }
  }

  /** Either every planned file is created, or the files are exactly as
      before: an existing target, a refusal to continue and a failed write
      all leave them alone. */
  lemma CreateCommandAllOrNothing(appPath: string, argument: string, files: set<string>, confirmed: bool,
                                  broken: set<string>)
    ensures var r, cmds := CreateCommand(appPath, argument, files, confirmed, broken), Commands(appPath, argument);
      && (r.outcome.Err? ==> r.files == files)
      && (r.outcome.Ok? && confirmed ==>
            r.files == files + (set i | 0 <= i < |cmds| :: cmds[i].filePath)
            && |r.outcome.value| == |cmds|)
      && (!confirmed ==> r.files == files)
      && (r.outcome.Err? <==>
            (exists i :: 0 <= i < |cmds| && cmds[i].filePath in files)
            || (confirmed && exists i :: 0 <= i < |cmds| && cmds[i].filePath in broken))
  {
    var cmds := Commands(appPath, argument);
    if Plan(appPath, argument, files).Ok? && confirmed {
      CreatedAreNew(files, cmds, broken);
      if WriteAll(files, cmds, broken).failure.None? {
        CreatedAll(files, cmds, broken);
      }
    }
  }

  /** As written, a write that fails after another command's file was
      created leaves that file behind. */
  lemma AsWrittenLeavesFiles(appPath: string, argument: string, files: set<string>, broken: set<string>)
    requires Plan(appPath, argument, files).Ok?
    requires |Commands(appPath, argument)| >= 2
    requires Commands(appPath, argument)[0].filePath !in broken
    requires Commands(appPath, argument)[1].filePath in broken
    ensures var r, first := CreateCommandAsWritten(appPath, argument, files, true, broken),
                            Commands(appPath, argument)[0].filePath;
      && r.outcome.Err? && first !in files && first in r.files
  {
    var cmds := Commands(appPath, argument);
    var w := WriteAll(files, cmds, broken);
    assert w.failure.Some?;
    assert w.created[0] in PathSet(w.created);
  }
}
