/**
 * The registration and dispatch state of `ArgparseApp` in `mundane/app.py`:
 * a table of shared parsers filled insert-if-absent, a table of commands
 * keyed by the function name with `_` turned into `-`, a lazily created
 * command subparser, a lazily cached terminal width, module hooks called
 * in order on the modules that define them, and `run`, which hands the
 * parsed arguments to the selected command.
 *
 * argparse objects are modelled by identities (`ParserId`) handed out from
 * a counter; what a parser holds beyond what is listed here is not modelled.
 */
module App {
  import opened Wrappers
  import opened Strings
  import opened Docstrings

  /** `os.EX_USAGE`: the exit status when no command was selected. */
  const ExUsage := 64

  /** The identity of an argparse object created by the application. */
  type ParserId = nat

  /** The main parser's identity; every later identity is larger. */
  const MainParser: ParserId := 0

  /** A command function: its `__name__` and what `inspect.getdoc` returns for it. */
  datatype Function = Function(name: string, doc: Option<string>)

  /** Keyword arguments a caller passes to `register_command` to override the derived values. */
  datatype Overrides = Overrides(help: Option<string>, description: Option<string>, parents: seq<ParserId>)

  /** A registered command: its function (the parser's `func` default), help, description, parents and parser. */
  datatype Command = Command(func: Function, help: string, description: string, parents: seq<ParserId>, parser: ParserId)

  /** The three module hooks. */
  datatype HookName = GlobalFlagsHook | SharedFlagsHook | CommandsHook

  /** The attribute a module defines to provide a hook. */
  function HookAttribute(h: HookName): string {
    match h
    case GlobalFlagsHook => "mundane_global_flags"
    case SharedFlagsHook => "mundane_shared_flags"
    case CommandsHook => "mundane_commands"
  }

  /** One call a hook makes on the application. */
  datatype Step =
    | AddFlag(flag: string)                    // `app.global_flags.add_argument(flag, ...)`
    | ShareParser(name: string)                // `app.new_shared_parser(name)`
    | AddCommand(func: Function, overrides: Overrides)  // `app.register_command(func, **overrides)`

  /**
   * A module: its `__name__`, which tells apart modules that define the
   * same hooks, and the hook functions among its attributes, each given by
   * the sequence of calls it makes.
   */
  datatype Module = Module(name: string, hooks: map<string, seq<Step>>)

  /** `getattr(module, HookAttribute(h), None)`: the hook, when the module defines it. */
  function HookOf(m: Module, h: HookName): Option<seq<Step>> {
    if HookAttribute(h) in m.hooks then Some(m.hooks[HookAttribute(h)]) else None
  }

  /** `mundane.log_mgr`, whose global-flags hook adds the log-level flag. */
  const LogMgr := Module("mundane.log_mgr", map["mundane_global_flags" := [AddFlag("--log-level")]])

  /** One call of a hook on a module. */
  datatype HookCall = HookCall(hook: HookName, source: Module)

  /** What the parsed arguments carry: the selected command's function, when there is one. */
  datatype Namespace = Namespace(func: Option<Function>)

  /** Exceptions a command function can raise: `AttributeError`, which `run` catches, or another one. */
  datatype Error = AttributeError | OtherError(name: string)

  /** What calling a command function does: return a value (`None` included) or raise. */
  datatype Outcome = Returned(value: Option<int>) | Raised(error: Error)

  /** What `run` does: return a value, or let an exception through. */
  datatype RunResult = Exit(status: Option<int>) | Propagate(error: Error)

  /** The application's registration state. `width == 0` stands for "not yet measured". */
  datatype AppState = AppState(
    globalFlags: seq<string>,
    shared: map<string, ParserId>,
    commands: map<string, Command>,
    subparser: Option<ParserId>,
    width: nat,
    nextId: ParserId)

  /** The command name for a function name: every `_` replaced by `-`. */
  function CommandName(name: string): string {
    Replace(name, '_', '-')
  }

  /** The `width` property: the first read stores the terminal's columns, later reads keep it. */
  function CachedWidth(st: AppState, columns: nat): AppState {
    if st.width == 0 then st.(width := columns) else st
  }

  /** The `subparser` property: created on first use, then kept. */
  function WithSubparser(st: AppState): AppState {
    if st.subparser.None? then st.(subparser := Some(st.nextId), nextId := st.nextId + 1) else st
  }

  /** `new_shared_parser(name)`: the new state and the parser, which is created only when `name` is new. */
  function NewShared(st: AppState, name: string): (AppState, Option<ParserId>) {
    if name !in st.shared then
      (st.(shared := st.shared[name := st.nextId], nextId := st.nextId + 1), Some(st.nextId))
    else
      (st, None)
  }

  /** `get_shared_parser(name)`. */
  function GetShared(st: AppState, name: string): Option<ParserId> {
    if name in st.shared then Some(st.shared[name]) else None
  }

  /**
   * `register_command(func, **overrides)`: the width is measured, the
   * function's docstring gives help and description unless overridden,
   * the subparser is made if needed, and a new parser is registered under
   * the command name.
   */
  function Register(st: AppState, f: Function, ov: Overrides, columns: nat): (AppState, ParserId)
    requires columns > 0
  {
    var s1 := CachedWidth(st, columns);
    var help := ov.help.GetOr(SummaryOf(f.doc, s1.width));
    var description := ov.description.GetOr(DescriptionOf(f.doc, s1.width));
    var s2 := WithSubparser(s1);
    (AddCommandTo(s2, CommandName(f.name), Command(f, help, description, ov.parents, s2.nextId)), s2.nextId)
  }

  /** `Register` in terms of the docstring's summary and description. */
  lemma RegisterFrom(st: AppState, f: Function, ov: Overrides, columns: nat, summary: string, description: string)
    requires columns > 0
    requires summary == SummaryOf(f.doc, CachedWidth(st, columns).width)
    requires description == DescriptionOf(f.doc, CachedWidth(st, columns).width)
    ensures Register(st, f, ov, columns) ==
      (AddCommandTo(WithSubparser(CachedWidth(st, columns)), CommandName(f.name),
                    Command(f, ov.help.GetOr(summary), ov.description.GetOr(description), ov.parents,
                            WithSubparser(CachedWidth(st, columns)).nextId)),
       WithSubparser(CachedWidth(st, columns)).nextId)
  {
  }

  /** `subparser.add_parser(name, ...)` with the function as default: the command under `name`, its parser handed out. */
  function AddCommandTo(st: AppState, name: string, cmd: Command): AppState {
    st.(commands := st.commands[name := cmd], nextId := st.nextId + 1)
  }

  /** The state after one call a hook makes. */
  function AfterStep(st: AppState, step: Step, columns: nat): AppState
    requires columns > 0
  {
    match step
    case AddFlag(flag) => st.(globalFlags := st.globalFlags + [flag])
    case ShareParser(name) => NewShared(st, name).0
    case AddCommand(f, ov) => Register(st, f, ov, columns).0
  }

  /** The state after a hook's calls, in order. */
  function AfterSteps(st: AppState, steps: seq<Step>, columns: nat): AppState
    requires columns > 0
    decreases |steps|
  {
    if |steps| == 0 then st
    else AfterStep(AfterSteps(st, steps[..|steps| - 1], columns), steps[|steps| - 1], columns)
  }

  /** The state after calling a hook on one module, if the module defines it. */
  function AfterHook(st: AppState, h: HookName, m: Module, columns: nat): AppState
    requires columns > 0
  {
    match HookOf(m, h)
    case Some(steps) => AfterSteps(st, steps, columns)
    case None => st
  }

  /** The state after `_register_module_via_hooks(h, modules)`. */
  function AfterModules(st: AppState, h: HookName, ms: seq<Module>, columns: nat): AppState
    requires columns > 0
    decreases |ms|
  {
    if |ms| == 0 then st
    else AfterHook(AfterModules(st, h, ms[..|ms| - 1], columns), h, ms[|ms| - 1], columns)
  }

  /** The hook calls `_register_module_via_hooks(h, modules)` makes, in order. */
  function Calls(h: HookName, ms: seq<Module>): seq<HookCall>
    decreases |ms|
  {
    if |ms| == 0 then []
    else Calls(h, ms[..|ms| - 1]) + (if HookOf(ms[|ms| - 1], h).Some? then [HookCall(h, ms[|ms| - 1])] else [])
  }

  /** The calls of every hook the modules define, concatenated in module order. */
  function HookSteps(h: HookName, ms: seq<Module>): seq<Step>
    decreases |ms|
  {
    if |ms| == 0 then []
    else HookSteps(h, ms[..|ms| - 1]) + HookOf(ms[|ms| - 1], h).GetOr([])
  }

  /** `run`'s result for the parsed `func` and a command function's behaviour. */
  function Dispatch(func: Option<Function>, handler: Function -> Outcome): RunResult {
    if func.None? then Exit(Some(ExUsage))
    else match handler(func.value)
      case Returned(v) => Exit(v)
      case Raised(AttributeError) => Exit(Some(ExUsage))
      case Raised(e) => Propagate(e)
  }

  /** Every identity in use was handed out after the main parser's and before `nextId`. */
  predicate IdsBelow(st: AppState) {
    && st.nextId > MainParser
    && (forall a | a in st.shared :: MainParser < st.shared[a] < st.nextId)
    && (forall b | b in st.commands :: MainParser < st.commands[b].parser < st.nextId)
    && (st.subparser.Some? ==> MainParser < st.subparser.value < st.nextId)
  }

  /** No two shared parsers are the same parser. */
  predicate SharedDistinct(st: AppState) {
    forall a, b | a in st.shared && b in st.shared && a != b :: st.shared[a] != st.shared[b]
  }

  /** No two commands share a parser. */
  predicate CommandsDistinct(st: AppState) {
    forall a, b | a in st.commands && b in st.commands && a != b :: st.commands[a].parser != st.commands[b].parser
  }

  /** No command's parser is a shared parser. */
  predicate SharedApart(st: AppState) {
    forall a, b | a in st.shared && b in st.commands :: st.shared[a] != st.commands[b].parser
  }

  /** The subparser is none of the parsers. */
  predicate SubparserApart(st: AppState) {
    st.subparser.Some? ==>
      && (forall a | a in st.shared :: st.shared[a] != st.subparser.value)
      && (forall b | b in st.commands :: st.commands[b].parser != st.subparser.value)
  }

  /** Every command sits under its own function's command name. */
  predicate KeyedByName(st: AppState) {
    forall b | b in st.commands :: b == CommandName(st.commands[b].func.name)
  }

  /**
   * What the application keeps true: the help flag comes first among the
   * global flags; every identity in use was handed out, after the main
   * parser's, and none twice; every command sits under its own function's
   * command name; commands exist only once the subparser does.
   */
  predicate Inv(st: AppState) {
    && |st.globalFlags| > 0 && st.globalFlags[0] == "--help"
    && IdsBelow(st)
    && KeyedByName(st)
    && (st.commands != map[] ==> st.subparser.Some?)
    && SharedDistinct(st) && CommandsDistinct(st) && SharedApart(st) && SubparserApart(st)
  }

  /** The state right after construction, before `log_mgr`'s hook. */
  function Initial(width: nat): AppState {
    AppState(["--help"], map[], map[], None, width, MainParser + 1)
  }

  /** An `ArgparseApp`. */
  class ArgparseApp {
    /** The main parser's description, when it has one. */
    const description: Option<string>
    var globalFlags: seq<string>
    var shared: map<string, ParserId>
    var commands: map<string, Command>
    var subparser: Option<ParserId>
    var width: nat
    var nextId: ParserId
    /** Every hook call made so far, in order. */
    ghost var hookCalls: seq<HookCall>

    function State(): AppState
      reads this
    {
      AppState(globalFlags, shared, commands, subparser, width, nextId)
    }

    ghost predicate Valid()
      reads this
    {
      Inv(State())
    }

    /**
     * `ArgparseApp(use_log_mgr, use_docstring_for_description, **kwargs)`.
     * `docSource` stands for the object whose docstring describes the
     * application, `kwDescription` for a `description` keyword argument,
     * which wins over it; the docstring is read (and the width measured)
     * either way.
     */
    constructor (useLogMgr: bool, docSource: Option<Option<string>>, kwDescription: Option<string>, columns: nat)
      requires columns > 0
      ensures Valid()
      ensures description ==
        if kwDescription.Some? then kwDescription
        else if docSource.Some? then Some(DescriptionOf(docSource.value, columns))
        else None
      ensures var st0 := Initial(if docSource.Some? then columns else 0);
        State() == if useLogMgr then AfterModules(st0, GlobalFlagsHook, [LogMgr], columns) else st0
      ensures hookCalls == if useLogMgr then Calls(GlobalFlagsHook, [LogMgr]) else []
    {
      var w := 0;
      var fromDoc: Option<string> := None;
      if docSource.Some? {
        w := columns;
        var ds := new Docstring(docSource.value, w);
        var d := ds.Description();
        fromDoc := Some(d);
      }
      description := if kwDescription.Some? then kwDescription else fromDoc;
      globalFlags := ["--help"];
      shared := map[];
      commands := map[];
      subparser := None;
      width := w;
      nextId := MainParser + 1;
      hookCalls := [];
      new;
      InitialInv(w);
      if useLogMgr {
        RegisterGlobalFlags([LogMgr], columns);
        assert hookCalls == [] + Calls(GlobalFlagsHook, [LogMgr]);
      }
    }

    /** The `width` property. */
    method Width(columns: nat) returns (w: nat)
      requires columns > 0
      requires Valid()
      modifies this
      ensures State() == CachedWidth(old(State()), columns)
      ensures w == width && w > 0
      ensures hookCalls == old(hookCalls)
      ensures Valid()
    {
      ghost var start := State();
      if width == 0 {
        width := columns;
      }
      w := width;
      assert State() == CachedWidth(start, columns);
      InvCachedWidth(start, columns);
    }

    /** The `subparser` property. */
    method Subparser() returns (sp: ParserId)
      requires Valid()
      modifies this
      ensures State() == WithSubparser(old(State()))
      ensures subparser == Some(sp)
      ensures hookCalls == old(hookCalls)
      ensures Valid()
    {
      ghost var start := State();
      if subparser.None? {
        subparser := Some(nextId);
        nextId := nextId + 1;
      }
      sp := subparser.value;
      assert State() == WithSubparser(start);
      InvWithSubparser(start);
    }

    /** `new_shared_parser(name)`. */
    method NewSharedParser(name: string) returns (p: Option<ParserId>)
      requires Valid()
      modifies this
      ensures (State(), p) == NewShared(old(State()), name)
      ensures hookCalls == old(hookCalls)
      ensures Valid()
    {
      ghost var start := State();
      if name !in shared {
        shared := shared[name := nextId];
        p := Some(nextId);
        nextId := nextId + 1;
      } else {
        p := None;
      }
      assert (State(), p) == NewShared(start, name);
      InvNewShared(start, name);
    }

    /** `get_shared_parser(name)`. */
    function GetSharedParser(name: string): (p: Option<ParserId>)
      reads this
      ensures p.Some? <==> name in shared
      ensures p.Some? ==> p.value == shared[name]
    {
      GetShared(State(), name)
    }

    /** `global_flags.add_argument(flag, ...)`, as a hook calls it. */
    method AddGlobalFlag(flag: string)
      requires Valid()
      modifies this
      ensures State() == old(State()).(globalFlags := old(globalFlags) + [flag])
      ensures hookCalls == old(hookCalls)
      ensures Valid()
    {
      ghost var start := State();
      globalFlags := globalFlags + [flag];
      assert State() == start.(globalFlags := start.globalFlags + [flag]);
      InvAddFlag(start, flag);
    }

    /** A command function's docstring reflowed to `width`: its summary and its description. */
    static method ReadDocstring(f: Function, width: nat) returns (summary: string, description: string)
      requires width > 0
      ensures summary == SummaryOf(f.doc, width)
      ensures description == DescriptionOf(f.doc, width)
    {
      var ds := new Docstring(f.doc, width);
      summary := ds.Summary();
      description := ds.Description();
    }

    /** `register_command(func, **overrides)`: returns the command's parser. */
    method RegisterCommand(f: Function, ov: Overrides, columns: nat) returns (parser: ParserId)
      requires columns > 0
      requires Valid()
      modifies this
      ensures (State(), parser) == Register(old(State()), f, ov, columns)
      ensures hookCalls == old(hookCalls)
      ensures Valid()
    {
      ghost var start := State();
      var name := CommandName(f.name);
      var w := Width(columns);
      ghost var measured := State();
      assert measured == CachedWidth(start, columns);
      var summary, desc := ReadDocstring(f, w);
      var help := ov.help.GetOr(summary);
      var description := ov.description.GetOr(desc);
      parser := AddParser(name, f, help, description, ov.parents);
      RegisterFrom(start, f, ov, columns, summary, desc);
    }

    /**
     * `subparser.add_parser(name, help=..., description=..., parents=...)`
     * followed by `set_defaults(func=f)`: the subparser is made if needed,
     * and a new parser carrying the command is registered under `name`.
     */
    method AddParser(name: string, f: Function, help: string, description: string, parents: seq<ParserId>)
      returns (parser: ParserId)
      requires Valid()
      requires name == CommandName(f.name)
      modifies this
      ensures parser == WithSubparser(old(State())).nextId
      ensures State() == AddCommandTo(WithSubparser(old(State())), name, Command(f, help, description, parents, parser))
      ensures hookCalls == old(hookCalls)
      ensures Valid()
    {
      var sp := Subparser();
      ghost var withSubparser := State();
      var cmd := Command(f, help, description, parents, nextId);
      parser := nextId;
      nextId := nextId + 1;
      commands := commands[name := cmd];
      assert State() == AddCommandTo(withSubparser, name, cmd);
      InvAddCommand(withSubparser, name, cmd);
    }

    /** Runs the calls a hook makes on the application, in order. */
    method InvokeHook(steps: seq<Step>, columns: nat)
      requires columns > 0
      requires Valid()
      modifies this
      ensures State() == AfterSteps(old(State()), steps, columns)
      ensures hookCalls == old(hookCalls)
      ensures Valid()
    {
      for i := 0 to |steps|
        invariant State() == AfterSteps(old(State()), steps[..i], columns)
        invariant hookCalls == old(hookCalls)
        invariant Valid()
      {
        assert steps[..i + 1][..i] == steps[..i];
        match steps[i]
        case AddFlag(flag) =>
          AddGlobalFlag(flag);
        case ShareParser(name) =>
          var _ := NewSharedParser(name);
        case AddCommand(f, ov) =>
          var _ := RegisterCommand(f, ov, columns);
      }
      assert steps[..|steps|] == steps;
    }

    /** `_register_module_via_hooks(h, modules)`: calls the hook of each module that defines it, in order. */
    method RegisterModuleViaHooks(h: HookName, ms: seq<Module>, columns: nat)
      requires columns > 0
      requires Valid()
      modifies this
      ensures State() == AfterModules(old(State()), h, ms, columns)
      ensures hookCalls == old(hookCalls) + Calls(h, ms)
      ensures Valid()
    {
      for i := 0 to |ms|
        invariant State() == AfterModules(old(State()), h, ms[..i], columns)
        invariant hookCalls == old(hookCalls) + Calls(h, ms[..i])
        invariant Valid()
      {
        assert ms[..i + 1][..i] == ms[..i];
        var hook := HookOf(ms[i], h);
        if hook.Some? {
          ghost var before := State();
          hookCalls := hookCalls + [HookCall(h, ms[i])];
          assert State() == before;
          InvokeHook(hook.value, columns);
        }
      }
      assert ms[..|ms|] == ms;
    }

    /** `register_global_flags(modules)`. */
    method RegisterGlobalFlags(ms: seq<Module>, columns: nat)
      requires columns > 0
      requires Valid()
      modifies this
      ensures State() == AfterModules(old(State()), GlobalFlagsHook, ms, columns)
      ensures hookCalls == old(hookCalls) + Calls(GlobalFlagsHook, ms)
      ensures Valid()
    {
      RegisterModuleViaHooks(GlobalFlagsHook, ms, columns);
    }

    /** `register_shared_flags(modules)`. */
    method RegisterSharedFlags(ms: seq<Module>, columns: nat)
      requires columns > 0
      requires Valid()
      modifies this
      ensures State() == AfterModules(old(State()), SharedFlagsHook, ms, columns)
      ensures hookCalls == old(hookCalls) + Calls(SharedFlagsHook, ms)
      ensures Valid()
    {
      RegisterModuleViaHooks(SharedFlagsHook, ms, columns);
    }

    /** `register_commands(modules)`. */
    method RegisterCommands(ms: seq<Module>, columns: nat)
      requires columns > 0
      requires Valid()
      modifies this
      ensures State() == AfterModules(old(State()), CommandsHook, ms, columns)
      ensures hookCalls == old(hookCalls) + Calls(CommandsHook, ms)
      ensures Valid()
    {
      RegisterModuleViaHooks(CommandsHook, ms, columns);
    }

    /**
     * `run(argv)` on the parsed arguments `ns`; `handler` stands for what
     * calling a command function does. Returns the result, whether the
     * main parser's help was printed, and the functions called.
     */
    method Run(ns: Namespace, handler: Function -> Outcome) returns (r: RunResult, helpPrinted: bool, invoked: seq<Function>)
      ensures r == Dispatch(ns.func, handler)
      ensures helpPrinted <==> ns.func.None? || handler(ns.func.value) == Raised(AttributeError)
      ensures invoked == if ns.func.Some? then [ns.func.value] else []
    {
      var ret: Option<int> := Some(ExUsage);
      invoked := [];
      helpPrinted := false;
      if ns.func.None? {
        helpPrinted := true;
        r := Exit(ret);
        return;
      }
      var f := ns.func.value;
      invoked := [f];
      var outcome := handler(f);
      match outcome
      case Returned(v) =>
        ret := v;
        r := Exit(ret);
      case Raised(AttributeError) =>
        helpPrinted := true;
        r := Exit(ret);
      case Raised(e) =>
        r := Propagate(e);
    }
  }

  // ----- Command names -----

  /** A command name holds no `_`, and every other character of the function name is kept. */
  lemma CommandNameShape(name: string)
    ensures '_' !in CommandName(name)
    ensures |CommandName(name)| == |name|
    ensures forall i | 0 <= i < |name| :: name[i] != '_' ==> CommandName(name)[i] == name[i]
  {
  }

  /** Renaming a command name again changes nothing. */
  lemma CommandNameIdempotent(name: string)
    ensures CommandName(CommandName(name)) == CommandName(name)
  {
    CommandNameShape(name);
    var c := CommandName(name);
    assert forall i | 0 <= i < |c| :: c[i] != '_';
  }

  /** A Python identifier holds no `-`, so `-` turned back into `_` gives the function name again. */
  lemma CommandNameRoundTrip(name: string)
    requires '-' !in name
    ensures Replace(CommandName(name), '-', '_') == name
  {
    var c := CommandName(name);
    var back := Replace(c, '-', '_');
    forall i | 0 <= i < |name| ensures back[i] == name[i] {
      assert name[i] != '-';
    }
  }

  /** Two functions whose names hold no `-` get the same command name only when their names agree. */
  lemma CommandNameInjective(a: string, b: string)
    requires '-' !in a && '-' !in b
    requires CommandName(a) == CommandName(b)
    ensures a == b
  {
    CommandNameRoundTrip(a);
    CommandNameRoundTrip(b);
  }

  lemma CommandNameExample()
    ensures CommandName("do_thing") == "do-thing"
  {
    assert CommandName("do_thing")[2] == '-';
  }

  // ----- Shared parsers, width, subparser -----

  /**
   * `new_shared_parser` creates a parser exactly when the name is new: the
   * parser is fresh and is what `get_shared_parser` finds from then on;
   * when the name is taken, nothing changes.
   */
  lemma NewSharedIffAbsent(st: AppState, name: string)
    requires Inv(st)
    ensures NewShared(st, name).1.Some? <==> name !in st.shared
    ensures NewShared(st, name).1.Some? ==>
      && GetShared(NewShared(st, name).0, name) == NewShared(st, name).1
      && NewShared(st, name).1.value !in st.shared.Values
      && (forall n | n != name :: GetShared(NewShared(st, name).0, n) == GetShared(st, n))
    ensures NewShared(st, name).1.None? ==> NewShared(st, name).0 == st
  {
    if name !in st.shared {
      var id := st.nextId;
      forall v | v in st.shared.Values ensures v != id {
        var k :| k in st.shared && st.shared[k] == v;
      }
    }
  }

  /** A second `new_shared_parser` with the same name returns `None`, and the first parser stays registered. */
  lemma NewSharedTwice(st: AppState, name: string)
    ensures NewShared(NewShared(st, name).0, name).1 == None
    ensures GetShared(NewShared(NewShared(st, name).0, name).0, name) == GetShared(NewShared(st, name).0, name)
    ensures name !in st.shared ==> GetShared(NewShared(NewShared(st, name).0, name).0, name) == NewShared(st, name).1
  {
  }

  /** Once measured, the width stays whatever the terminal's columns are later. */
  lemma WidthStable(st: AppState, c1: nat, c2: nat)
    requires c1 > 0
    ensures CachedWidth(st, c1).width > 0
    ensures CachedWidth(CachedWidth(st, c1), c2) == CachedWidth(st, c1)
    ensures st.width > 0 ==> CachedWidth(st, c1) == st
  {
  }

  /** The subparser is created at most once. */
  lemma SubparserOnce(st: AppState)
    ensures WithSubparser(WithSubparser(st)) == WithSubparser(st)
    ensures WithSubparser(st).subparser.Some?
    ensures st.subparser.Some? ==> WithSubparser(st) == st
  {
  }

  /**
   * `register_command` registers the function under its command name, with
   * the docstring's summary and description (each unless overridden), the
   * given parents and a fresh parser, and leaves the other commands, the
   * shared parsers and the global flags as they were.
   */
  lemma RegisterEntry(st: AppState, f: Function, ov: Overrides, columns: nat, s: AppState, id: ParserId)
    requires columns > 0
    requires Inv(st)
    requires (s, id) == Register(st, f, ov, columns)
    ensures CommandName(f.name) in s.commands
    ensures s.commands[CommandName(f.name)] ==
      Command(f, ov.help.GetOr(SummaryOf(f.doc, CachedWidth(st, columns).width)),
              ov.description.GetOr(DescriptionOf(f.doc, CachedWidth(st, columns).width)), ov.parents, id)
    ensures id !in st.shared.Values
    ensures forall b | b in st.commands :: st.commands[b].parser != id
    ensures st.subparser.Some? ==> s.subparser == st.subparser && st.subparser.value != id
    ensures forall b | b != CommandName(f.name) :: (b in s.commands <==> b in st.commands)
    ensures forall b | b != CommandName(f.name) && b in st.commands :: s.commands[b] == st.commands[b]
    ensures s.shared == st.shared && s.globalFlags == st.globalFlags
  {
    assert id >= st.nextId;
    forall v | v in st.shared.Values ensures v != id {
      var k :| k in st.shared && st.shared[k] == v;
    }
  }

  // ----- The invariant -----

  lemma InitialInv(width: nat)
    ensures Inv(Initial(width))
  {
  }

  lemma {:induction false} InvCachedWidth(st: AppState, columns: nat)
    requires Inv(st)
    ensures Inv(CachedWidth(st, columns))
  {
  }

  lemma {:induction false} InvWithSubparser(st: AppState)
    requires Inv(st)
    ensures Inv(WithSubparser(st))
  {
  }

  lemma {:induction false} InvNewShared(st: AppState, name: string)
    requires Inv(st)
    ensures Inv(NewShared(st, name).0)
  {
    if name !in st.shared {
      var s := NewShared(st, name).0;
      forall a | a in s.shared ensures MainParser < s.shared[a] < s.nextId {
        if a != name {
          assert s.shared[a] == st.shared[a];
        }
      }
      forall a, b | a in s.shared && b in s.shared && a != b ensures s.shared[a] != s.shared[b] {
        if a != name && b != name {
          assert s.shared[a] == st.shared[a] && s.shared[b] == st.shared[b];
        } else if a == name {
          assert s.shared[b] == st.shared[b];
        } else {
          assert s.shared[a] == st.shared[a];
        }
      }
      forall a, b | a in s.shared && b in s.commands ensures s.shared[a] != s.commands[b].parser {
        if a != name {
          assert s.shared[a] == st.shared[a];
        }
      }
      if s.subparser.Some? {
        forall a | a in s.shared ensures s.shared[a] != s.subparser.value {
          if a != name {
            assert s.shared[a] == st.shared[a];
          }
        }
      }
      assert IdsBelow(s) && SharedDistinct(s) && SharedApart(s) && SubparserApart(s);
    }
  }

  /** Adding a command with a fresh parser, once the subparser exists, keeps the invariant. */
  lemma InvAddCommand(st: AppState, name: string, cmd: Command)
    requires Inv(st)
    requires st.subparser.Some?
    requires cmd.parser == st.nextId
    requires name == CommandName(cmd.func.name)
    ensures Inv(AddCommandTo(st, name, cmd))
  {
    var s := AddCommandTo(st, name, cmd);
    assert forall b | b in s.commands && b != name :: s.commands[b] == st.commands[b];
    AddCommandBelow(st, name, cmd);
    AddCommandDistinct(st, name, cmd);
    AddCommandApart(st, name, cmd);
    assert s.globalFlags == st.globalFlags;
  }

  lemma AddCommandBelow(st: AppState, name: string, cmd: Command)
    requires IdsBelow(st) && KeyedByName(st)
    requires cmd.parser == st.nextId
    requires name == CommandName(cmd.func.name)
    ensures IdsBelow(AddCommandTo(st, name, cmd)) && KeyedByName(AddCommandTo(st, name, cmd))
  {
    var s := AddCommandTo(st, name, cmd);
    forall b | b in s.commands ensures MainParser < s.commands[b].parser < s.nextId && b == CommandName(s.commands[b].func.name) {
      if b != name {
        assert s.commands[b] == st.commands[b];
      }
    }
  }

  lemma AddCommandDistinct(st: AppState, name: string, cmd: Command)
    requires IdsBelow(st) && CommandsDistinct(st)
    requires cmd.parser == st.nextId
    ensures CommandsDistinct(AddCommandTo(st, name, cmd))
  {
    var s := AddCommandTo(st, name, cmd);
    forall a, b | a in s.commands && b in s.commands && a != b ensures s.commands[a].parser != s.commands[b].parser {
      if a != name && b != name {
        assert s.commands[a] == st.commands[a] && s.commands[b] == st.commands[b];
      } else if a == name {
        assert s.commands[b] == st.commands[b];
      } else {
        assert s.commands[a] == st.commands[a];
      }
    }
  }

  lemma AddCommandApart(st: AppState, name: string, cmd: Command)
    requires IdsBelow(st) && SharedApart(st) && SubparserApart(st)
    requires cmd.parser == st.nextId
    ensures SharedApart(AddCommandTo(st, name, cmd)) && SubparserApart(AddCommandTo(st, name, cmd))
  {
    var s := AddCommandTo(st, name, cmd);
    forall a, b | a in s.shared && b in s.commands ensures s.shared[a] != s.commands[b].parser {
      if b != name {
        assert s.commands[b] == st.commands[b];
      }
    }
    if s.subparser.Some? {
      forall b | b in s.commands ensures s.commands[b].parser != s.subparser.value {
        if b != name {
          assert s.commands[b] == st.commands[b];
        }
      }
    }
  }

  lemma {:induction false} InvRegister(st: AppState, f: Function, ov: Overrides, columns: nat)
    requires columns > 0
    requires Inv(st)
    ensures Inv(Register(st, f, ov, columns).0)
  {
    InvCachedWidth(st, columns);
    var s1 := CachedWidth(st, columns);
    InvWithSubparser(s1);
    var s2 := WithSubparser(s1);
    var w := s1.width;
    var cmd := Command(f, ov.help.GetOr(SummaryOf(f.doc, w)), ov.description.GetOr(DescriptionOf(f.doc, w)), ov.parents, s2.nextId);
    InvAddCommand(s2, CommandName(f.name), cmd);
    assert Register(st, f, ov, columns).0 == AddCommandTo(s2, CommandName(f.name), cmd);
  }

  /** Adding a global flag keeps the help flag first and the invariant. */
  lemma InvAddFlag(st: AppState, flag: string)
    requires Inv(st)
    ensures Inv(st.(globalFlags := st.globalFlags + [flag]))
  {
    assert (st.globalFlags + [flag])[0] == st.globalFlags[0];
  }

  lemma {:induction false} InvAfterStep(st: AppState, step: Step, columns: nat)
    requires columns > 0
    requires Inv(st)
    ensures Inv(AfterStep(st, step, columns))
  {
    match step
    case AddFlag(flag) =>
      InvAddFlag(st, flag);
    case ShareParser(name) =>
      InvNewShared(st, name);
    case AddCommand(f, ov) =>
      InvRegister(st, f, ov, columns);
  }

  /** Whatever calls the hooks make, the invariant holds afterwards. */
  lemma {:induction false} InvAfterSteps(st: AppState, steps: seq<Step>, columns: nat)
    requires columns > 0
    requires Inv(st)
    ensures Inv(AfterSteps(st, steps, columns))
    decreases |steps|
  {
    if |steps| > 0 {
      InvAfterSteps(st, steps[..|steps| - 1], columns);
      InvAfterStep(AfterSteps(st, steps[..|steps| - 1], columns), steps[|steps| - 1], columns);
    }
  }

  /** Registering modules' hooks keeps the invariant. */
  lemma {:induction false} InvAfterModules(st: AppState, h: HookName, ms: seq<Module>, columns: nat)
    requires columns > 0
    requires Inv(st)
    ensures Inv(AfterModules(st, h, ms, columns))
    decreases |ms|
  {
    if |ms| > 0 {
      var before := AfterModules(st, h, ms[..|ms| - 1], columns);
      InvAfterModules(st, h, ms[..|ms| - 1], columns);
      match HookOf(ms[|ms| - 1], h)
      case Some(steps) => InvAfterSteps(before, steps, columns);
      case None =>
    }
  }

  // ----- Hook dispatch -----

  /** Running two lists of calls one after the other is running them concatenated. */
  lemma {:induction false} AfterStepsAppend(st: AppState, a: seq<Step>, b: seq<Step>, columns: nat)
    requires columns > 0
    ensures AfterSteps(st, a + b, columns) == AfterSteps(AfterSteps(st, a, columns), b, columns)
    decreases |b|
  {
    if |b| == 0 {
      assert a + b == a;
    } else {
      assert (a + b)[..|a + b| - 1] == a + b[..|b| - 1];
      assert (a + b)[|a + b| - 1] == b[|b| - 1];
      AfterStepsAppend(st, a, b[..|b| - 1], columns);
    }
  }

  /**
   * Registering modules has the effect of the hooks of the modules that
   * define the hook, each once, in module order; modules without it
   * contribute nothing.
   */
  lemma {:induction false} AfterModulesAsSteps(st: AppState, h: HookName, ms: seq<Module>, columns: nat)
    requires columns > 0
    ensures AfterModules(st, h, ms, columns) == AfterSteps(st, HookSteps(h, ms), columns)
    decreases |ms|
  {
    if |ms| > 0 {
      var init := ms[..|ms| - 1];
      var m := ms[|ms| - 1];
      AfterModulesAsSteps(st, h, init, columns);
      AfterStepsAppend(st, HookSteps(h, init), HookOf(m, h).GetOr([]), columns);
      if HookOf(m, h).None? {
        assert HookSteps(h, init) + [] == HookSteps(h, init);
      }
    }
  }

  /** Modules registered in two batches have the effect of one batch, in the same order. */
  lemma {:induction false} AfterModulesAppend(st: AppState, h: HookName, a: seq<Module>, b: seq<Module>, columns: nat)
    requires columns > 0
    ensures AfterModules(st, h, a + b, columns) == AfterModules(AfterModules(st, h, a, columns), h, b, columns)
    decreases |b|
  {
    if |b| == 0 {
      assert a + b == a;
    } else {
      assert (a + b)[..|a + b| - 1] == a + b[..|b| - 1];
      assert (a + b)[|a + b| - 1] == b[|b| - 1];
      AfterModulesAppend(st, h, a, b[..|b| - 1], columns);
    }
  }

  /** The hook calls for two batches of modules are those of the first, then those of the second. */
  lemma {:induction false} CallsAppend(h: HookName, a: seq<Module>, b: seq<Module>)
    ensures Calls(h, a + b) == Calls(h, a) + Calls(h, b)
    decreases |b|
  {
    if |b| == 0 {
      assert a + b == a;
    } else {
      assert (a + b)[..|a + b| - 1] == a + b[..|b| - 1];
      assert (a + b)[|a + b| - 1] == b[|b| - 1];
      CallsAppend(h, a, b[..|b| - 1]);
    }
  }

  /** Every call is of hook `h` on a module that defines it. */
  lemma {:induction false} CallsOnlyDefined(h: HookName, ms: seq<Module>)
    ensures forall i | 0 <= i < |Calls(h, ms)| ::
      Calls(h, ms)[i].hook == h && Calls(h, ms)[i].source in ms && HookOf(Calls(h, ms)[i].source, h).Some?
    decreases |ms|
  {
    if |ms| > 0 {
      var init := ms[..|ms| - 1];
      CallsOnlyDefined(h, init);
      assert forall m | m in init :: m in ms;
    }
  }

  /** A module is called as many times as it is listed when it defines the hook, and never otherwise. */
  lemma {:induction false} CallsCount(h: HookName, ms: seq<Module>, m: Module)
    ensures multiset(Calls(h, ms))[HookCall(h, m)] == if HookOf(m, h).Some? then multiset(ms)[m] else 0
    decreases |ms|
  {
    if |ms| > 0 {
      var init := ms[..|ms| - 1];
      var last := ms[|ms| - 1];
      CallsCount(h, init, m);
      assert ms == init + [last];
      assert multiset(ms) == multiset(init) + multiset{last};
    }
  }

  // ----- Dispatch -----

  /** `run` returns `EX_USAGE` exactly when no command was selected, the command raised `AttributeError`, or it returned 64 itself. */
  lemma RunUsage(func: Option<Function>, handler: Function -> Outcome)
    ensures Dispatch(func, handler) == Exit(Some(ExUsage)) <==>
      func.None? || handler(func.value) == Raised(AttributeError) || handler(func.value) == Returned(Some(ExUsage))
  {
  }

  /** When the command returns, `run` returns its result unchanged, `None` included. */
  lemma RunPassesResult(f: Function, handler: Function -> Outcome)
    requires handler(f).Returned?
    ensures Dispatch(Some(f), handler) == Exit(handler(f).value)
  {
  }

  /** An exception other than `AttributeError` leaves `run` unchanged. */
  lemma RunPropagates(f: Function, handler: Function -> Outcome, name: string)
    requires handler(f) == Raised(OtherError(name))
    ensures Dispatch(Some(f), handler) == Propagate(OtherError(name))
  {
  }
}
