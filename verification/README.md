# nails/module-console, modelled in Dafny

The Nails console module bootstraps a Symfony console application, and it
ships the "maker" tooling that writes new source files into an app. The
logic worth modelling is string and line manipulation inside that
tooling. This project models it as pure functions over strings
(`seq<char>`, one character per PHP byte, so a multi-byte UTF-8 character
such as the arrow `↓` is written as its three bytes) and over files read
as sequences of lines.

It covers:

- **The services-file rewriter** (`BaseMaker::validateServiceFile` and
  `writeServiceFile`). It finds the first `// GENERATOR[token]` line and
  records that line's indent and byte offset. It splices the new
  definitions in front of that line. It then reads the file back and
  sends each line to the top level or to one of the four sections
  (`'services'`, `'models'`, `'factories'`, `'resources'`). Each
  section's lines are grouped under their `'id' => function` identifier,
  and the groups are sorted by key. Each section is closed with one fresh
  generator line, and the result is spliced back in place of the
  section's placeholder.
  - Modules: `Lines`, `ServiceToken`, `ServiceLayout`, `ServiceGroups`,
    `ServiceRewrite`.
- **The string helpers of `BaseMaker`**: `tabs`, `getResource` and
  `parseClassNames`. Module: `Maker`.
- **PHP's `sort`** on strings, as byte-wise ascending order. Module:
  `Order`.
- **`Base::validateClassName`**. Module: `ClassName`. This includes a
  streaming recogniser that is proved to give the same verdict.
- **The text layout of `Base`**: `abort`, `outputBlock`, `keyValueList`
  and `banner`. Each is modelled as the list of lines it writes. Module:
  `Layout`.
- **`make:console`**. It turns a comma-separated list of command names
  into a class name, namespace, command string and file path for each
  command, and it creates the files. Module: `MakeConsole`.
- **Command discovery in `App`**. It builds the list of command
  locations, and turns each file found under a location into a
  fully-qualified class name. Module: `Discovery`.
- **Alias commands (`BaseAlias`)**. `configure` has two guards, and
  `execute` forwards the alias's arguments and options to the target
  command. Module: `Alias`.

`Text` and `Results` hold the PHP string primitives (`trim`, `ucfirst`,
`explode`, `implode`, `str_replace`, `strpos`, `str_pad`, falsy strings)
and the `Result`/`Option` types.

Two behaviours of the code are easy to miss, and the model keeps both:

- **Rewriting with no definitions.** With no definitions,
  `writeServiceFile` still writes `implode(PHP_EOL, []) . PHP_EOL`
  (src/Command/BaseMaker.php:390). That is a lone newline, inserted in
  front of the token line (`ServiceToken.DefinitionBlock`).
- **Trailing newline in class names.** The class-name pattern
  (src/Command/Base.php:383) ends in `$` without the `D` modifier. So PCRE
  also accepts a segment that is an identifier followed by one final
  newline. `ClassName.SegmentMatches` models that.

## Model

| member | source | states |
|---|---|---|
| Maker.Tabs | src/Command/BaseMaker.php:308-311 | `tabs(n)` is exactly 4·n characters, and every one of them is a space |
| Maker.GetResource | src/Command/BaseMaker.php:154-166 | an empty or "0" RESOURCE_PATH is the only error; with no fields the template comes back as it is |
| Maker.NoPlaceholderUnchanged | src/Command/BaseMaker.php:161-164 | a template containing no `{{` comes back unchanged whatever the fields are, whenever RESOURCE_PATH is set |
| Maker.FillsLonePlaceholder | src/Command/BaseMaker.php:161-163 | a single `{{FIELD}}` with no other brace around it is replaced by the value, and the text on either side is kept |
| Maker.ReplaceFromFirstOccurrence | src/Command/BaseMaker.php:163 | `str_replace` keeps everything before the first occurrence, puts the replacement there, and carries on after the key |
| Maker.ParseClassNames | src/Command/BaseMaker.php:500-521 | the result is a permutation of the entries in input order, sorted when sorting is asked for, has exactly the input order otherwise, and holds no "" or "0" |
| Maker.Truthy | src/Command/BaseMaker.php:502-515 | `array_filter` keeps only entries that are neither "" nor "0", and keeps every such entry |
| Maker.TruthyCounts | src/Command/BaseMaker.php:502-515 | each kept entry occurs as often as in the input, and a falsy one not at all |
| Maker.TruthyAppend | src/Command/BaseMaker.php:502-515 | filtering keeps the input order: filtering two lists glued together is filtering each and gluing the results |
| Maker.TruthyKeeps | src/Command/BaseMaker.php:502-515 | a list with no falsy entry comes back unchanged |
| Maker.TruthyDrops | src/Command/BaseMaker.php:502-515 | a list of falsy entries comes back empty |
| Maker.ClassSegments | src/Command/BaseMaker.php:506-507 | an entry splits into at least one segment; no segment holds a `:`, `\` or `/`, and none starts with a lower-case letter |
| Maker.ParsedNameShape | src/Command/BaseMaker.php:500-521 | no parsed name contains `:` or `\`, and each of its `/`-segments is empty or starts with something other than a lower-case letter |
| Maker.ParsedNamesShape | src/Command/BaseMaker.php:500-521 | the same shape holds for every element of the result |
| Order.Sort | src/Command/BaseMaker.php:517-519 | `sort` returns an ascending permutation of its input |
| Order.SortedUnique | src/Command/BaseMaker.php:517-519 | two sorted lists with the same elements are equal, so the sorted result depends only on the multiset of entries |
| Order.BelowTotal | src/Command/BaseMaker.php:517-519 | any two strings are comparable |
| Order.BelowTransitive | src/Command/BaseMaker.php:517-519 | the string order is transitive |
| Order.BelowAntisymmetric | src/Command/BaseMaker.php:517-519 | strings that are each below the other are equal |
| Order.EmptyIsLeast | src/Command/BaseMaker.php:470 | the empty key sorts before every other key |
| Lines.SplitLinesSound | src/Command/BaseMaker.php:343 | the `fgets` lines of a file glue back to the file, and each line has a newline only at its end |
| Lines.SplitConcat | src/Command/BaseMaker.php:386-395 | reading back the concatenation of well-formed lines gives those lines |
| Lines.SplitLinesAppend | src/Command/BaseMaker.php:386-395 | a file cut just after a newline reads as the lines of each half |
| ServiceToken.ResolveToken | src/Command/BaseMaker.php:323-329 | the error "token not set" happens exactly when both the given token and SERVICE_TOKEN are empty; otherwise the given token wins unless it is empty |
| ServiceToken.Indent | src/Command/BaseMaker.php:344-346 | the indent is the whole run of `\s` characters that starts the line |
| ServiceToken.MarksTokenIsPatternMatch | src/Command/BaseMaker.php:344 | a line marks the token exactly when `^(\s*)// GENERATOR\[token]` matches it, and the only whitespace capture that matches is the whole leading run |
| ServiceToken.Scan | src/Command/BaseMaker.php:342-351 | the loop stops at the first marked line, recording its indent and the summed length of every line before it; when no line is marked it finds nothing |
| ServiceToken.Locate | src/Command/BaseMaker.php:321-363 | the cases are: no token is the "token not set" error; a missing file is the "services file missing" error; a marked line gives the first such line with its indent and offset; a file with no marked line gives exactly the "token not found" error naming the token |
| ServiceToken.DefinitionBlock | src/Command/BaseMaker.php:390 | the inserted block always ends in a newline, and with no definitions it is a lone newline |
| ServiceToken.SpliceInsertsBeforeToken | src/Command/BaseMaker.php:384-395 | the spliced file is the lines before the token line, then the definition block, then the token line and all later lines, unchanged |
| ServiceToken.SpliceLines | src/Command/BaseMaker.php:384-406 | read back line by line, the spliced file is the old lines with the block's lines in front of the token line |
| ServiceLayout.OpenerOf | src/Command/BaseMaker.php:408-431 | a line is an opener of a section exactly when it starts with one tab and that section's quoted key |
| ServiceLayout.CloserIsNoOpener | src/Command/BaseMaker.php:432-434 | a closing `],` line never opens a section |
| ServiceLayout.ClosedFromMeans | src/Command/BaseMaker.php:436 | `GENERATOR\[.*\]` finds its `]` exactly when a `]` follows on the same line |
| ServiceLayout.Keep | src/Command/BaseMaker.php:436-438 | no kept line is a generator line |
| ServiceLayout.RunAppend | src/Command/BaseMaker.php:406-439 | reading two runs of lines is reading the first, then the second from where it left off |
| ServiceLayout.RunInert | src/Command/BaseMaker.php:436-438 | lines that neither open nor close a section stay in the array in use, with generator lines dropped, and the array in use does not change |
| ServiceLayout.RunBlockLines | src/Command/BaseMaker.php:408-438 | an opener goes to the top level with its placeholder, the body goes to that section, and the closer is kept at the top level |
| ServiceLayout.RunTop | src/Command/BaseMaker.php:406-439 | at the top level, lines that open no section, closers included, stay at the top level with generator lines dropped |
| ServiceLayout.DistributeRendered | src/Command/BaseMaker.php:397-439 | reading a file of top-level lines and closed sections from the top level ends at the top level, with exactly the reference layout: top-level lines and placeholders, and each section's bodies in order |
| ServiceGroups.SpaceRun | src/Command/BaseMaker.php:459 | ` *` takes the whole leading run of spaces |
| ServiceGroups.IdentifierIsLazyMatch | src/Command/BaseMaker.php:459-461 | the identifier taken is the shortest capture for which `'(.*?)' *=> *function` matches; there is none when the pattern does not match |
| ServiceGroups.IdentifierLineOwner | src/Command/BaseMaker.php:459-467 | a line that names an identifier is filed under that identifier |
| ServiceGroups.OwnerStep | src/Command/BaseMaker.php:457-467 | every other line is filed under the identifier in force before it |
| ServiceGroups.CollectAt | src/Command/BaseMaker.php:463-467 | a group exists exactly when some line is filed under its key, and it is those lines glued together in their original order |
| ServiceGroups.Keys | src/Command/BaseMaker.php:470 | the group keys after `ksort` are sorted and are exactly the keys lines are filed under |
| ServiceGroups.KeysStrictlySorted | src/Command/BaseMaker.php:463-470 | repeated identifiers make one group, so the keys are strictly ascending |
| ServiceGroups.EmptyKeyFirst | src/Command/BaseMaker.php:455-470 | lines before the first identifier form the "" group, which comes first |
| ServiceGroups.PickStartsNamed | src/Command/BaseMaker.php:459-467 | every group other than "" is non-empty and starts with the line that names its key |
| ServiceGroups.GroupsConcat | src/Command/BaseMaker.php:470-474 | gluing the sorted group texts together gives the regrouped lines glued together |
| ServiceGroups.RegroupedPermutes | src/Command/BaseMaker.php:457-474 | regrouping only reorders: the section holds the same lines, each the same number of times |
| ServiceGroups.RegroupedIsStable | src/Command/BaseMaker.php:457-474 | regrouping an already regrouped section keeps its keys and groups and changes nothing |
| ServiceRewrite.GeneratorLine | src/Command/BaseMaker.php:472 | the generator line written for a section ends in a newline |
| ServiceRewrite.Normalize | src/Command/BaseMaker.php:470-472 | the section gets one text per identifier key and then one generator line naming the section; glued together, they are the regrouped lines followed by that generator line |
| ServiceRewrite.IndexOf | src/Command/BaseMaker.php:475 | `array_search` gives the first index holding the placeholder, or nothing when it is absent |
| ServiceRewrite.PlaceFills | src/Command/BaseMaker.php:475 | splicing at a placeholder that occurs once replaces that placeholder by the section's lines |
| ServiceRewrite.AssembleExpands | src/Command/BaseMaker.php:443-476 | when each placeholder occurs once at the top level, the four splices replace each placeholder with its regrouped section and keep every other top-level line in order |
| ServiceRewrite.TopOfSlots | src/Command/BaseMaker.php:408-431 | each opened section leaves exactly one placeholder at the top level |
| ServiceRewrite.GroupsTerminated | src/Command/BaseMaker.php:467 | groups glued from lines of the file end in a newline, so none of them is mistaken for a placeholder |
| ServiceRewrite.RewriteShape | src/Command/BaseMaker.php:378-479 | for a file of top-level lines and closed sections that opens each section once, the new file is the top level with each placeholder replaced by its section's groups in key order plus one generator line |
| ServiceRewrite.Generate | src/Command/BaseMaker.php:321-479 | the rewrite fails exactly when no token is set, the file is missing, or no line marks the token, and then it fails with the validation error; otherwise the new file is the rewrite at the first marked line |
| ServiceRewrite.SlotOf | src/Command/BaseMaker.php:408-431 | a top-level entry is a section's placeholder exactly when it is that section's token |
| ClassName.Normalise | src/Command/Base.php:379 | every `/` becomes `\` and nothing else changes |
| ClassName.SegmentsOfRaw | src/Command/Base.php:379-380 | splitting the normalised name at `\` is splitting the raw name at both `/` and `\` |
| ClassName.FirstInvalid | src/Command/Base.php:382-383 | the first segment the pattern rejects, if any; every segment before it matches |
| ClassName.ValidIff | src/Command/Base.php:377-394 | a name is accepted exactly when every segment matches the identifier pattern |
| ClassName.SeparatorAgnostic | src/Command/Base.php:379-380 | writing `/` or `\` between segments never changes the verdict |
| ClassName.RejectsBadSegment | src/Command/Base.php:383-384 | an empty segment (from an empty name, or a leading, trailing or doubled separator) or a digit-led one is rejected |
| ClassName.EmptyNameRejected | src/Command/Base.php:380-384 | the empty name is rejected |
| ClassName.Message | src/Command/Base.php:384-391 | the exception message has four lines: "Invalid class name", spaces up to the column and then the three bytes of `↓`, the normalised name, and spaces up to the same column and then the three bytes of `↑` |
| ClassName.CaretUnderSegment | src/Command/Base.php:387-389 | the arrows point at the rejected segment itself, which lies between separators or the ends of the name |
| ClassName.AsWrittenCaretNoLater | src/Command/Base.php:382-391 | as written the verdict, name and segment are the same, and the arrows point no later than the segment |
| ClassName.CaretMisplaced | src/Command/Base.php:387-389 | for "A1/1" the code's arrows point at column 1, inside "A1", instead of at column 3 |
| ClassName.Recognise | src/Command/Base.php:377-394 | one left-to-right pass with no splitting gives the validator's verdict |
| Layout.Abort | src/Command/Base.php:185-214 | `abort` returns the code it is given; it writes four lines besides the messages, and six on failure |
| Layout.AbortFailureLayout | src/Command/Base.php:187-210 | on failure the heading and a blank line come first; every line between the outer blanks is in `<error>` tags and as wide as the longest message plus four, with each message two spaces in |
| Layout.AbortOtherLayout | src/Command/Base.php:191-211 | any other code writes the messages as they are, with no padding or tags, between two blank lines above and two below |
| Layout.OutputBlock | src/Command/Base.php:248-257 | a block has one line more than the input at the top and one at the bottom; an empty input is an error, because `max` of nothing fails |
| Layout.OutputBlockLayout | src/Command/Base.php:250-257 | every line of the block, the blank edges included, is as wide as the longest line, with one space inside each tag, and carries its line in order |
| Layout.KeyColumn | src/Command/Base.php:349 | the value column is one past the longest key: past every key, and next to some key |
| Layout.KeyValueList | src/Command/Base.php:343-362 | an empty list writes nothing; otherwise one row per pair plus the blank lines asked for |
| Layout.KeyValueAligned | src/Command/Base.php:349-362 | every row carries its key and value, and the value starts at the same visible column after at least one space |
| Layout.KeyValueRowAt | src/Command/Base.php:357-365 | the rows sit between the optional blank lines, in the order of the pairs |
| Layout.BannerRuleFits | src/Command/Base.php:319-323 | the rules hold exactly as many dashes as the trimmed text has characters, so they are as wide as the text line |
| MakeConsole.CommandNames | src/Console/Command/Make/Console.php:90-96 | the names to create are sorted, and are the normalised entries other than "" and "0", each as often as it occurs |
| MakeConsole.NormaliseNameShape | src/Console/Command/Make/Console.php:91 | a normalised entry is the trimmed entry with the first character and each character after a `/` upper-cased |
| Text.CapitalisedPieces | src/Console/Command/Make/Console.php:91 | `ucfirst` on every piece of an `explode`, then `implode` with the same separator, upper-cases the first character and each one after the separator, and changes nothing else |
| MakeConsole.Bits | src/Console/Command/Make/Console.php:100-101 | a name has one bit per `:`-piece and at least one; no bit holds a `:`; joined by `:` the bits are the name with the first character and each one after a `:` upper-cased |
| MakeConsole.FullClassNameJoins | src/Console/Command/Make/Console.php:103-105 | the full class name is `App\Console\Command` and every bit, joined by `\` |
| MakeConsole.ColonsFullName | src/Console/Command/Make/Console.php:106 | with `:` for `\`, the full class name is `App:Console:Command:` followed by the bits joined by `:` with their own `\` turned into `:` too |
| MakeConsole.CommandIsLoweredBits | src/Console/Command/Make/Console.php:106 | the command string is the lower-cased bits joined by `:`, with any `\` in them as `:` |
| MakeConsole.CommandOfName | src/Console/Command/Make/Console.php:100-106 | the command string is the name itself lower-cased, with `\` as `:`; capitalising the bits makes no difference |
| MakeConsole.FilePathShape | src/Console/Command/Make/Console.php:203-219 | the path ends in the class file, and starts with APP_PATH stripped of its trailing `/` and then a `/` |
| MakeConsole.FilePathSingleSeparator | src/Console/Command/Make/Console.php:203-219 | when the first part after APP_PATH is non-empty and does not start with `/`, exactly one `/` separates APP_PATH from the rest |
| MakeConsole.FilePathDoubledSeparator | src/Console/Command/Make/Console.php:203-219 | for the name ":foo" the bits are "" and "Foo", and the path is APP_PATH, then `//`, then `Foo.php` |
| MakeConsole.CommandFor | src/Console/Command/Make/Console.php:98-123 | the full class name is `App\Console\Command` and the bits joined by `\`, and it is the namespace, a `\` and the class name; the class name is the last bit; the path ends in the class file under APP_PATH; the command string is the lowered name when the prefix does not recur |
| MakeConsole.Commands | src/Console/Command/Make/Console.php:90-124 | one command per name, in sorted-name order, each with the full class name of its name's bits and a path that ends in its class file |
| MakeConsole.FirstExisting | src/Console/Command/Make/Console.php:109-114 | the first command whose file already exists, or none if no file exists |
| MakeConsole.Plan | src/Console/Command/Make/Console.php:98-124 | planning succeeds exactly when no target exists; otherwise it raises the `ConsoleException` naming an existing path |
| MakeConsole.WriteAll | src/Console/Command/Make/Console.php:136-146 | files are created in order until a write fails; the files afterwards are the old ones plus those created, and a failure is never a `ConsoleException` |
| MakeConsole.CreateCommandAllOrNothing | src/Console/Command/Make/Console.php:110-158 | corrected policy: every planned file is created, or the files are exactly as before; an error happens exactly when a target exists or a confirmed write fails |
| MakeConsole.AsWrittenLeavesFiles | src/Console/Command/Make/Console.php:136-158 | as written, a failed second write leaves the first command's new file behind |
| Discovery.LocationsShape | src/App.php:102-114 | the common location comes first; root j of component i comes next at its place, under `Console/Command/` and its namespace plus `Console\Command` |
| Discovery.LocationCount | src/App.php:106-114 | there is one location per namespace root, after the common one |
| Discovery.LastIndex | src/App.php:133 | the index of the last occurrence of a character, or -1 when it is absent |
| Discovery.PathInfoTop | src/App.php:133-141 | a file name with no directory has dirname "." and contributes no directory part |
| Discovery.DirPartsOfComponents | src/App.php:133-142 | a file `d1/…/dn/f` contributes directory parts d1 … dn and the name of f without its extension |
| Discovery.ClassNameOfParts | src/App.php:134-145 | the class name is the namespace, the directories and the file name joined by `\`, with a falsy namespace or file name dropped |
| Discovery.InNamespace | src/App.php:134-145 | a class found under a location lies in that location's namespace |
| Discovery.NamedAfterFile | src/App.php:142-145 | the class name ends with the file's name when that name is kept |
| Discovery.NoEmptyPart | src/App.php:134-145 | for a namespace with no empty or "0" level, no `\`-level of the class name is "" or "0": the falsy directories and file names are dropped, not left as empty levels |
| Discovery.ClassesIn | src/App.php:131-146 | one class per listed file, in listing order |
| Discovery.DiscoverCount | src/App.php:123-147 | discovery yields exactly one class per file listed, with nothing removed as a duplicate |
| Discovery.DiscoverAt | src/App.php:123-147 | file k of location i yields its class at its place: in location order, then listing order |
| Discovery.CommonFirst | src/App.php:102-147 | the common module's commands come first, named in its namespace |
| Discovery.LoadCommands | src/App.php:123-147 | the boot loop collects exactly the classes of every location, one per listed file |
| Alias.Configure | src/Command/BaseAlias.php:29-43 | an empty COMMAND or ALIAS is an error, with COMMAND checked first; otherwise the name is ALIAS and the description is "Alias to <info>COMMAND</info>" |
| Alias.Prefixed | src/Command/BaseAlias.php:62-65 | every option is present under "--" + its name with its value, and nothing else is |
| Alias.InteractiveIff | src/Command/BaseAlias.php:71-75 | the call is interactive exactly when "no-interaction" is empty; when it is not empty, the option is not forwarded |
| Alias.TargetIsCommand | src/Command/BaseAlias.php:58-79 | the target is always COMMAND, and no forwarded key replaces the "command" entry |
| Alias.ArgumentsWin | src/Command/BaseAlias.php:58-79 | every argument except "command" is forwarded unchanged, and it wins over an option with the same key |
| Alias.OptionsForwarded | src/Command/BaseAlias.php:62-79 | every option except a non-empty "no-interaction" is forwarded under "--" + its name, unless an argument has that key |
| Alias.NothingElseForwarded | src/Command/BaseAlias.php:58-79 | every forwarded key is an argument other than "command" or the prefixed name of an option |

## Left out

- File and console I/O are left out: `fopen`, `fgets`, `ftell`, the temporary file, `unlink`, `rename` and `writeln`. Files are strings read as `fgets` lines, and output is the list of lines written.
- `createPath` and `createFile` are not modelled in terms of directories, permissions or `dirname`. A write either creates its path or fails, and the paths that fail are a parameter.
- `ReflectionClass` instantiability and `$oApp->add` (src/App.php:149-154) are left out. Discovery stops at the list of class names.
- `Directory::map` and `Components::available` are not part of this model. They are parameters: a listing function and a list of components.
- The interactive re-prompt loop of `getArguments`, `ask` and `confirm` are left out. The confirmation answer is a parameter.
- `Base::run`, event triggers, `isCommand`, `callCommand`'s lookup and run, and `error`/`warning` are left out. `callCommand` is modelled only as putting the target name under "command".
- `BaseMaker::execute`'s environment check and its banner call are left out. The environment is a foreign call.
- `Console::execute`'s catch-and-abort (src/Console/Command/Make/Console.php:44-72) is left out. `Layout.Abort` models what abort writes.
- `createCommand`'s progress messages are left out. Only the files and the outcome are modelled.
- Numeric-string keys are left out. PHP turns such keys into integers, and `sort`/`ksort` compare them numerically. Here every comparison is byte-wise (`Order.Below`).
- ServiceToken.Locate: requires the token to hold no regex metacharacter, because the source puts the token into the pattern unescaped.
- ServiceRewrite.RewriteShape: requires that no top-level line is exactly a bare placeholder token such as `SERVICES`, because the splice could not tell it from the placeholder.
- ServiceLayout.DistributeRendered: covers files where every opened section is closed by a `],` line before another section opens. A file that ends inside a section, or opens a section inside another, is read by `ServiceLayout.Run` but not characterised.
- ServiceRewrite.RewriteShape: requires each of the four sections to be opened exactly once. With a missing section, `array_search` returns false and the splice replaces the first line. `ServiceRewrite.Place` models that, but no property is proved for it.
- Layout.BannerRuleFits: counts characters as bytes. `mb_strlen` counts UTF-8 characters, so the two agree only on one-byte text.
- MakeConsole.CommandIsLoweredBits: requires that `app:console:command:` does not occur again in the lowered bits. `str_replace` removes every occurrence, so such a name loses more than its prefix. MakeConsole.CommandOfName and MakeConsole.CommandFor state the command string under the same condition.
- Discovery.ClassNameOfParts: covers paths whose components are non-empty and free of `/`, as a directory listing yields them, and it drops only a falsy namespace or file name, so it also requires that no directory is named "0". `array_filter` drops such a directory too; `Discovery.ClassNameOf` models that, but the parts lemma does not state it. `pathinfo` on other strings is modelled but not characterised.
- Discovery.NoEmptyPart: requires the namespace to have no empty or "0" level, and no directory or file name to hold a `\`. Every location's namespace ends in `Console\Command` (src/App.php:102-114).
- `DIRECTORY_SEPARATOR` and `PHP_EOL` are fixed to "/" and "\n".
- `strlen`, `str_pad` and `strtolower` work on single bytes here. The tag text is never measured.
- The `Alias` maps are `map`s, so PHP's array order of the forwarded input is not modelled. Symfony's input does not depend on it.

## Findings

| source | as written | input that shows it | evidently intended | confidence | as-written member | corrected member |
|---|---|---|---|---|---|---|
| src/Console/Command/Make/Console.php:149-158 | Only `ConsoleException` triggers removal of the files created so far. A failed `createPath` or `createFile` raises an exception that does not extend it, so the clean-up never runs. | Two commands with no existing target, confirmed, where the second write fails: the first file is left behind. | Any failure during creation removes every file created in this invocation before the error is passed on. | medium, not executed | MakeConsole.AsWrittenLeavesFiles | MakeConsole.CreateCommandAllOrNothing |
| src/Command/Base.php:387-389 | The arrows are placed at `strpos($sClassName, $sSegment)`, the first occurrence of the segment's text anywhere in the name. | "A1/1": the segment "1" is rejected, but the arrows point at column 1, inside "A1", not at column 3. | The arrows sit under the rejected segment itself. | high, not executed | ClassName.CaretMisplaced | ClassName.CaretUnderSegment |
