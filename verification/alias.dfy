// An alias command: a command registered under another name that re-runs
// its target command with the input it was given.

module Alias {
  import opened Text
  import opened Results

  /** The value of an argument or an option, as the console input holds it. */
  datatype Value = Str(s: string) | Bool(b: bool) | Null | List(items: seq<string>)

  /** PHP's `empty()` on such a value. */
  predicate Empty(v: Value) {
    match v
    case Str(s) => Falsy(s)
    case Bool(b) => !b
    case Null => true
    case List(items) => items == []
  }

  // ---------------------------------------------------------------------
  // configure

  /** What `configure` sets on the alias command. */
  datatype Configured = Configured(name: string, description: string)

  /** `configure`: both constants must be non-empty; the alias answers to
      ALIAS and describes itself as an alias to COMMAND. */
  function Configure(command: string, alias: string): (r: Result<Configured, string>)
    ensures r.Err? <==> Falsy(command) || Falsy(alias)
    ensures r.Err? && Falsy(command) ==> r.error == "static::COMMAND must be defined"
    ensures r.Err? && !Falsy(command) ==> r.error == "static::ALIAS must be defined"
    ensures r.Ok? ==> r.value.name == alias
    ensures r.Ok? ==> (StartsWith(r.value.description, "Alias to <info>")
                       && EndsWith(r.value.description, "</info>"))
    ensures r.Ok? ==> (|r.value.description| == 15 + |command| + 7
                       && r.value.description[15..15 + |command|] == command)
  {
    if Falsy(command) then Err("static::COMMAND must be defined")
    else if Falsy(alias) then Err("static::ALIAS must be defined")
    else Ok(Configured(alias, "Alias to <info>" + command + "</info>"))
  }

  // ---------------------------------------------------------------------
  // execute

  const CommandKey: string := "command"
  const NoInteraction: string := "--no-interaction"

  /** The option named `name` under its forwarded key. */
  function OptionKey(name: string): string {
    "--" + name
  }

  lemma OptionKeyInjective(a: string, b: string)
    ensures OptionKey(a) == OptionKey(b) ==> a == b
  {
    if OptionKey(a) == OptionKey(b) {
      assert a == OptionKey(a)[2..];
    }
  }

  /** Every option under the key "--" + its name. */
  function Prefixed(options: map<string, Value>): (r: map<string, Value>)
    ensures forall name :: name in options ==> OptionKey(name) in r && r[OptionKey(name)] == options[name]
    ensures forall key :: key in r ==> StartsWith(key, "--") && key[2..] in options
  {
    map key | key in (set name | name in options :: OptionKey(name)) :: options[key[2..]]
  }

  /** `$a + $b` on arrays: every key of `a` with its value, then the keys of
      `b` that `a` lacks. */
  function Union(a: map<string, Value>, b: map<string, Value>): map<string, Value> {
    map key | key in a.Keys + b.Keys :: if key in a then a[key] else b[key]
  }

  /** What the alias passes on: the input for the target and whether it may
      ask questions. */
  datatype Call = Call(target: string, input: map<string, Value>, interactive: bool)

  /** Whether the options turn interaction off. */
  predicate NonInteractive(options: map<string, Value>) {
    "no-interaction" in options && !Empty(options["no-interaction"])
  }

  /** The options as forwarded: prefixed, with a non-empty
      "--no-interaction" taken out. */
  function ForwardedOptions(options: map<string, Value>): map<string, Value> {
    var prefixed := Prefixed(options);
    if NoInteraction in prefixed && !Empty(prefixed[NoInteraction])
    then prefixed - {NoInteraction}
    else prefixed
  }

  /** The arguments and options of `execute`, before the target command adds
      its own name. */
  function Forward(arguments: map<string, Value>, options: map<string, Value>): map<string, Value> {
    Union(arguments - {CommandKey}, ForwardedOptions(options))
  }

  /** `callCommand`: the target's name first, under "command", then the
      given input, whose keys override it. */
  function CallInput(command: string, input: map<string, Value>): map<string, Value> {
    map[CommandKey := Str(command)] + input
  }

  /** `execute`: re-run COMMAND with the forwarded input. */
  function Execute(command: string, arguments: map<string, Value>, options: map<string, Value>): Call {
    Call(command, CallInput(command, Forward(arguments, options)), !NonInteractive(options))
  }

  // ---------------------------------------------------------------------
  // Properties

  /** "--no-interaction" is the key of the option "no-interaction". */
  lemma NoInteractionKey(options: map<string, Value>)
    ensures NoInteraction in Prefixed(options) <==> "no-interaction" in options
    ensures "no-interaction" in options ==> Prefixed(options)[NoInteraction] == options["no-interaction"]
  {
    assert NoInteraction == OptionKey("no-interaction");
    if NoInteraction in Prefixed(options) {
      assert NoInteraction[2..] == "no-interaction";
    }
  }

  /** The call is interactive unless "no-interaction" was given a non-empty
      value; in that case the option is not forwarded. */
  lemma InteractiveIff(command: string, arguments: map<string, Value>, options: map<string, Value>)
    ensures Execute(command, arguments, options).interactive <==> !NonInteractive(options)
    ensures NonInteractive(options) ==> NoInteraction !in ForwardedOptions(options)
    ensures !NonInteractive(options) ==> ForwardedOptions(options) == Prefixed(options)
  {
    NoInteractionKey(options);
  }

  /** Every forwarded option key starts with "--", so none is "command". */
  lemma OptionsNeverCommand(options: map<string, Value>)
    ensures CommandKey !in ForwardedOptions(options)
  {
    assert !StartsWith(CommandKey, "--") by {
      assert CommandKey[0] == 'c';
    }
  }

  /** The target is always COMMAND: no forwarded key can replace it. */
  lemma TargetIsCommand(command: string, arguments: map<string, Value>, options: map<string, Value>)
    ensures Execute(command, arguments, options).target == command
    ensures Execute(command, arguments, options).input[CommandKey] == Str(command)
  {
    OptionsNeverCommand(options);
    assert CommandKey !in Forward(arguments, options);
  }

  /** Every argument but "command" is forwarded unchanged, winning over an
      option with the same key. */
  lemma ArgumentsWin(arguments: map<string, Value>, options: map<string, Value>, key: string)
    requires key in arguments && key != CommandKey
    ensures key in Forward(arguments, options) && Forward(arguments, options)[key] == arguments[key]
  {
  }

  /** Every option but a non-empty "no-interaction" is forwarded under
      "--" + its name, unless an argument has that key. */
  lemma OptionsForwarded(arguments: map<string, Value>, options: map<string, Value>, name: string)
    requires name in options
    requires !(name == "no-interaction" && NonInteractive(options))
    requires OptionKey(name) !in arguments
    ensures OptionKey(name) in Forward(arguments, options)
    ensures Forward(arguments, options)[OptionKey(name)] == options[name]
  {
    NoInteractionKey(options);
    if OptionKey(name) == NoInteraction {
      OptionKeyInjective(name, "no-interaction");
    }
    OptionsNeverCommand(options);
  }

  /** Nothing else is forwarded: each key is an argument other than
      "command" or the prefixed name of an option. */
  lemma NothingElseForwarded(arguments: map<string, Value>, options: map<string, Value>, key: string)
    requires key in Forward(arguments, options)
    ensures (key in arguments && key != CommandKey)
         || (StartsWith(key, "--") && key[2..] in options && key != NoInteraction)
         || (key == NoInteraction && !NonInteractive(options) && "no-interaction" in options)
  {
    NoInteractionKey(options);
  }
}
