/** The command line: an argument loop that accepts exactly the sequences of option groups, each kind
    at most once, in any order, with memory, page size and guest images present. */
module Cli {
  import opened Options

  const KIB: nat := 1024
  const MIB: nat := 1024 * KIB

  datatype Config = Config(memorySize: nat, pageSize: nat, guestImages: seq<string>, sharedFiles: seq<string>)
  datatype CliResult = Ok(config: Config) | Help | Error

  const EMPTY_CONFIG: Config := Config(0, 0, [], [])

  datatype Kind = Memory | Page | Guest | File

  function ParseMemoryValue(value: string): Option<nat> {
    if value == "2" then Some(2 * MIB)
    else if value == "4" then Some(4 * MIB)
    else if value == "8" then Some(8 * MIB)
    else None
  }

  function ParsePageValue(value: string): Option<nat> {
    if value == "4" then Some(4 * KIB)
    else if value == "2" then Some(2 * MIB)
    else None
  }

  predicate IsHelp(argument: string) {
    argument == "-h" || argument == "--help"
  }

  function Spelling(kind: Kind, long: bool): string {
    match kind
    case Memory => if long then "--memory" else "-m"
    case Page => if long then "--page" else "-p"
    case Guest => if long then "--guest" else "-g"
    case File => if long then "--file" else "-f"
  }

  function KindOf(argument: string): Option<Kind> {
    if argument == "-m" || argument == "--memory" then Some(Memory)
    else if argument == "-p" || argument == "--page" then Some(Page)
    else if argument == "-g" || argument == "--guest" then Some(Guest)
    else if argument == "-f" || argument == "--file" then Some(File)
    else None
  }

  lemma SpellingOf(kind: Kind, long: bool)
    ensures KindOf(Spelling(kind, long)) == Some(kind)
    ensures !IsHelp(Spelling(kind, long)) && !IsOperand(Spelling(kind, long))
  {
  }

  lemma SpelledAs(argument: string, kind: Kind)
    requires KindOf(argument) == Some(kind)
    ensures argument == Spelling(kind, |argument| > 2)
  {
  }

  /** An argument that is not an option: empty, or not starting with '-'. */
  predicate IsOperand(argument: string) {
    argument == "" || argument[0] != '-'
  }

  // ----- the argument loop

  /** How many arguments from the front are operands. */
  function OperandCount(args: seq<string>): (n: nat)
    ensures n <= |args|
    ensures forall k :: 0 <= k < n ==> IsOperand(args[k])
    ensures n < |args| ==> !IsOperand(args[n])
  {
    if args == [] || !IsOperand(args[0]) then 0 else 1 + OperandCount(args[1..])
  }

  datatype Taken = Refuse | Go(rest: seq<string>, config: Config)

  /** What an option of this kind makes of the arguments behind it. */
  function Take(kind: Kind, args: seq<string>, config: Config): (t: Taken)
    ensures t.Go? ==> |t.rest| <= |args|
  {
    match kind
    case Memory =>
      if args == [] || ParseMemoryValue(args[0]).None? then Refuse
      else Go(args[1..], config.(memorySize := ParseMemoryValue(args[0]).value))
    case Page =>
      if args == [] || ParsePageValue(args[0]).None? then Refuse
      else Go(args[1..], config.(pageSize := ParsePageValue(args[0]).value))
    case Guest =>
      var n := OperandCount(args);
      if n == 0 then Refuse else Go(args[n..], config.(guestImages := args[..n]))
    case File =>
      var n := OperandCount(args);
      if n == 0 then Refuse else Go(args[n..], config.(sharedFiles := args[..n]))
  }

  /** What the loop makes of the remaining arguments, given what it has collected. */
  function Parse(args: seq<string>, config: Config, seen: set<Kind>): CliResult
    decreases |args|
  {
    if args == [] then
      if Memory in seen && Page in seen && Guest in seen then Ok(config) else Error
    else if IsHelp(args[0]) then Help
    else match KindOf(args[0])
      case None => Error
      case Some(kind) =>
        if kind in seen then Error
        else match Take(kind, args[1..], config)
          case Refuse => Error
          case Go(rest, config') => Parse(rest, config', seen + {kind})
  }

  /** The inner loop: takes operands from position i on. */
  method TakeOperands(args: seq<string>, start: nat) returns (i: nat, taken: seq<string>)
    requires start <= |args|
    ensures i == start + OperandCount(args[start..]) <= |args|
    ensures taken == args[start..][..i - start] && args[start..][i - start..] == args[i..]
  {
    i, taken := start, [];
    ghost var rest := args[start..];
    while i < |args| && IsOperand(args[i])
      invariant start <= i <= |args| && taken == rest[..i - start]
      invariant OperandCount(rest) == i - start + OperandCount(rest[i - start..])
    {
      assert rest[i - start] == args[i] && rest[i - start..][1..] == rest[i + 1 - start..];
      taken := taken + [args[i]];
      i := i + 1;
    }
    assert i < |args| ==> rest[i - start] == args[i];
  }

  /** One option of the argument loop, the option itself at position i. */
  method TakeOption(args: seq<string>, i: nat, kind: Kind, config: Config)
    returns (taken: bool, next: nat, config': Config)
    requires i < |args|
    ensures if taken then i < next <= |args| && Take(kind, args[i + 1..], config) == Go(args[next..], config')
            else Take(kind, args[i + 1..], config) == Refuse
  {
    taken, next, config' := false, i, config;
    ghost var rest := args[i + 1..];
    assert i + 1 < |args| ==> rest[0] == args[i + 1] && rest[1..] == args[i + 2..];
    match kind {
      case Memory =>
        if i + 1 < |args| && ParseMemoryValue(args[i + 1]).Some? {
          taken, next, config' := true, i + 2, config.(memorySize := ParseMemoryValue(args[i + 1]).value);
        }
      case Page =>
        if i + 1 < |args| && ParsePageValue(args[i + 1]).Some? {
          taken, next, config' := true, i + 2, config.(pageSize := ParsePageValue(args[i + 1]).value);
        }
      case Guest =>
        var images;
        next, images := TakeOperands(args, i + 1);
        if images != [] {
          taken, config' := true, config.(guestImages := images);
        }
      case File =>
        var files;
        next, files := TakeOperands(args, i + 1);
        if files != [] {
          taken, config' := true, config.(sharedFiles := files);
        }
    }
  }

  /** parseArguments; `args` is argv without the program name. */
  method ParseArguments(args: seq<string>) returns (result: CliResult)
    ensures result == Parse(args, EMPTY_CONFIG, {})
    ensures forall config: Config :: result == Ok(config) <==> Says(args, config)
  {
    forall config: Config
      ensures Parse(args, EMPTY_CONFIG, {}) == Ok(config) <==> Says(args, config)
    {
      ConfigurationsExactly(args, config);
    }
    var config, i := EMPTY_CONFIG, 0;
    var seen: set<Kind> := {};
    assert args[0..] == args;
    while i < |args|
      invariant 0 <= i <= |args|
      invariant Parse(args, EMPTY_CONFIG, {}) == Parse(args[i..], config, seen)
    {
      if IsHelp(args[i]) {
        return Help;
      }
      var kind := KindOf(args[i]);
      if kind.None? || kind.value in seen {
        return Error;
      }
      assert args[i..][1..] == args[i + 1..];
      var taken;
      taken, i, config := TakeOption(args, i, kind.value, config);
      if !taken {
        return Error;
      }
      seen := seen + {kind.value};
    }
    assert args[i..] == [];
    result := if Memory in seen && Page in seen && Guest in seen then Ok(config) else Error;
  }

  // ----- the grammar

  /** One option with what belongs to it, in its short or long spelling. */
  datatype Group =
    | MemoryGroup(long: bool, value: string)
    | PageGroup(long: bool, value: string)
    | GuestGroup(long: bool, images: seq<string>)
    | FileGroup(long: bool, files: seq<string>)

  function GroupKind(g: Group): Kind {
    match g
    case MemoryGroup(_, _) => Memory
    case PageGroup(_, _) => Page
    case GuestGroup(_, _) => Guest
    case FileGroup(_, _) => File
  }

  /** Arguments that an option takes: at least one, and each empty or not starting with a dash. */
  predicate AreOperands(s: seq<string>) {
    s != [] && forall k :: 0 <= k < |s| ==> s[k] == "" || s[k][0] != '-'
  }

  predicate GroupOk(g: Group) {
    match g
    case MemoryGroup(_, value) => value == "2" || value == "4" || value == "8"
    case PageGroup(_, value) => value == "4" || value == "2"
    case GuestGroup(_, images) => AreOperands(images)
    case FileGroup(_, files) => AreOperands(files)
  }

  /** What stands behind the option. */
  function Values(g: Group): seq<string> {
    match g
    case MemoryGroup(_, value) => [value]
    case PageGroup(_, value) => [value]
    case GuestGroup(_, images) => images
    case FileGroup(_, files) => files
  }

  function Render(g: Group): seq<string> {
    [Spelling(GroupKind(g), g.long)] + Values(g)
  }

  /** The arguments for these groups, with `tail` behind them. */
  function RenderAll(gs: seq<Group>, tail: seq<string>): seq<string> {
    if gs == [] then tail else Render(gs[0]) + RenderAll(gs[1..], tail)
  }

  function Apply(g: Group, config: Config): Config
    requires GroupOk(g)
  {
    match g
    case MemoryGroup(_, value) =>
      config.(memorySize := if value == "2" then 0x20_0000 else if value == "4" then 0x40_0000 else 0x80_0000)
    case PageGroup(_, value) => config.(pageSize := if value == "4" then 0x1000 else 0x20_0000)
    case GuestGroup(_, images) => config.(guestImages := images)
    case FileGroup(_, files) => config.(sharedFiles := files)
  }

  /** Well-formed groups, of kinds not in `seen` and each kind at most once. */
  predicate GroupsOk(gs: seq<Group>, seen: set<Kind>) {
    gs != [] ==>
      && GroupOk(gs[0]) && GroupKind(gs[0]) !in seen
      && GroupsOk(gs[1..], seen + {GroupKind(gs[0])})
  }

  function ApplyAll(gs: seq<Group>, config: Config, seen: set<Kind>): Config
    requires GroupsOk(gs, seen)
  {
    if gs == [] then config
    else ApplyAll(gs[1..], Apply(gs[0], config), seen + {GroupKind(gs[0])})
  }

  function Kinds(gs: seq<Group>, seen: set<Kind>): set<Kind> {
    if gs == [] then seen else Kinds(gs[1..], seen + {GroupKind(gs[0])})
  }

  predicate Complete(kinds: set<Kind>) {
    Memory in kinds && Page in kinds && Guest in kinds
  }

  lemma {:induction false} OperandRun(run: seq<string>, tail: seq<string>)
    requires forall k :: 0 <= k < |run| ==> IsOperand(run[k])
    requires tail == [] || !IsOperand(tail[0])
    ensures OperandCount(run + tail) == |run|
  {
    if run == [] {
      assert run + tail == tail;
    } else {
      OperandRun(run[1..], tail);
      assert (run + tail)[1..] == run[1..] + tail;
    }
  }

  lemma TakeGroup(g: Group, tail: seq<string>, config: Config)
    requires GroupOk(g)
    requires tail == [] || !IsOperand(tail[0])
    ensures Take(GroupKind(g), Values(g) + tail, config) == Go(tail, Apply(g, config))
  {
    var values := Values(g);
    if g.GuestGroup? || g.FileGroup? {
      OperandRun(values, tail);
      assert (values + tail)[..|values|] == values && (values + tail)[|values|..] == tail;
    } else {
      assert (values + tail)[1..] == tail;
    }
  }

  /** One group in front of something that does not continue it is taken as that group. */
  lemma ParseGroup(g: Group, tail: seq<string>, config: Config, seen: set<Kind>)
    requires GroupOk(g) && GroupKind(g) !in seen
    requires tail == [] || !IsOperand(tail[0])
    ensures Parse(Render(g) + tail, config, seen) == Parse(tail, Apply(g, config), seen + {GroupKind(g)})
  {
    var args := Render(g) + tail;
    assert args[0] == Spelling(GroupKind(g), g.long) && args[1..] == Values(g) + tail;
    SpellingOf(GroupKind(g), g.long);
    TakeGroup(g, tail, config);
  }

  lemma RenderStartsWithOption(gs: seq<Group>, tail: seq<string>)
    requires tail == [] || !IsOperand(tail[0])
    ensures RenderAll(gs, tail) == [] || !IsOperand(RenderAll(gs, tail)[0])
  {
    if gs != [] {
      SpellingOf(GroupKind(gs[0]), gs[0].long);
    }
  }

  lemma {:induction false} ParseGroups(gs: seq<Group>, tail: seq<string>, config: Config, seen: set<Kind>)
    requires GroupsOk(gs, seen)
    requires tail == [] || !IsOperand(tail[0])
    ensures Parse(RenderAll(gs, tail), config, seen) == Parse(tail, ApplyAll(gs, config, seen), Kinds(gs, seen))
  {
    if gs != [] {
      RenderStartsWithOption(gs[1..], tail);
      ParseGroup(gs[0], RenderAll(gs[1..], tail), config, seen);
      ParseGroups(gs[1..], tail, Apply(gs[0], config), seen + {GroupKind(gs[0])});
    }
  }

  lemma TakenGroup(kind: Kind, args: seq<string>, config: Config, long: bool) returns (g: Group, tail: seq<string>)
    requires Take(kind, args, config).Go?
    ensures GroupOk(g) && GroupKind(g) == kind && g.long == long
    ensures args == Values(g) + tail && Take(kind, args, config) == Go(tail, Apply(g, config))
  {
    var n := OperandCount(args);
    match kind {
      case Memory => g, tail := MemoryGroup(long, args[0]), args[1..];
      case Page => g, tail := PageGroup(long, args[0]), args[1..];
      case Guest => g, tail := GuestGroup(long, args[..n]), args[n..];
      case File => g, tail := FileGroup(long, args[..n]), args[n..];
    }
  }

  /** A pass of the loop that neither ends in an error nor in help. */
  lemma OnePass(args: seq<string>, config: Config, seen: set<Kind>) returns (kind: Kind)
    requires args != [] && !IsHelp(args[0]) && Parse(args, config, seen) != Error
    ensures KindOf(args[0]) == Some(kind) && kind !in seen
    ensures var t := Take(kind, args[1..], config);
            t.Go? && Parse(args, config, seen) == Parse(t.rest, t.config, seen + {kind})
  {
    kind := KindOf(args[0]).value;
  }

  lemma RenderedInFront(args: seq<string>, g: Group, tail: seq<string>)
    requires args != [] && args[0] == Spelling(GroupKind(g), g.long) && args[1..] == Values(g) + tail
    ensures args == Render(g) + tail && |tail| < |args|
  {
    assert args == [args[0]] + args[1..];
    assert [args[0]] + (Values(g) + tail) == ([args[0]] + Values(g)) + tail;
  }

  /** The group a successful pass of the loop has taken off the front. */
  lemma FirstGroup(args: seq<string>, config: Config, seen: set<Kind>) returns (g: Group, tail: seq<string>)
    requires args != [] && !IsHelp(args[0]) && Parse(args, config, seen) != Error
    ensures GroupOk(g) && GroupKind(g) !in seen && args == Render(g) + tail && |tail| < |args|
    ensures Parse(args, config, seen) == Parse(tail, Apply(g, config), seen + {GroupKind(g)})
  {
    var kind := OnePass(args, config, seen);
    SpelledAs(args[0], kind);
    g, tail := TakenGroup(kind, args[1..], config, |args[0]| > 2);
    RenderedInFront(args, g, tail);
  }

  /** Whatever is not an error is a sequence of groups, complete or up to a request for help. */
  lemma {:induction false} ParsedGroups(args: seq<string>, config: Config, seen: set<Kind>)
    returns (gs: seq<Group>, tail: seq<string>)
    requires Parse(args, config, seen) != Error
    ensures GroupsOk(gs, seen) && args == RenderAll(gs, tail)
    ensures Parse(args, config, seen) == Parse(tail, ApplyAll(gs, config, seen), Kinds(gs, seen))
    ensures tail == [] || IsHelp(tail[0])
    decreases |args|
  {
    if args == [] || IsHelp(args[0]) {
      gs, tail := [], args;
    } else {
      var g, rest := FirstGroup(args, config, seen);
      var more;
      more, tail := ParsedGroups(rest, Apply(g, config), seen + {GroupKind(g)});
      gs := [g] + more;
      assert gs[1..] == more;
    }
  }

  /** The groups of a command line, in the order they were given. */
  ghost predicate IsCommandLine(args: seq<string>, gs: seq<Group>, config: Config) {
    GroupsOk(gs, {}) && Complete(Kinds(gs, {})) && RenderAll(gs, []) == args && ApplyAll(gs, EMPTY_CONFIG, {}) == config
  }

  /** Acceptance: parseArguments returns Ok with a configuration iff the arguments are a complete
      sequence of groups, in any order and either spelling, that says this configuration. */
  lemma AcceptsExactlyCommandLines(args: seq<string>, config: Config)
    ensures Parse(args, EMPTY_CONFIG, {}) == Ok(config) <==> exists gs :: IsCommandLine(args, gs, config)
  {
    if Parse(args, EMPTY_CONFIG, {}) == Ok(config) {
      var gs, tail := ParsedGroups(args, EMPTY_CONFIG, {});
      assert IsCommandLine(args, gs, config);
    }
    if gs :| IsCommandLine(args, gs, config) {
      ParseGroups(gs, [], EMPTY_CONFIG, {});
    }
  }

  ghost predicate IsHelpRequest(args: seq<string>, gs: seq<Group>, tail: seq<string>) {
    GroupsOk(gs, {}) && args == RenderAll(gs, tail) && tail != [] && (tail[0] == "-h" || tail[0] == "--help")
  }

  /** Help is shown iff a help option stands where an option is expected, after valid groups only. */
  lemma HelpExactly(args: seq<string>)
    ensures Parse(args, EMPTY_CONFIG, {}) == Help <==> exists gs, tail :: IsHelpRequest(args, gs, tail)
  {
    if Parse(args, EMPTY_CONFIG, {}) == Help {
      var gs, tail := ParsedGroups(args, EMPTY_CONFIG, {});
      assert IsHelpRequest(args, gs, tail);
    }
    if gs, tail :| IsHelpRequest(args, gs, tail) {
      ParseGroups(gs, tail, EMPTY_CONFIG, {});
    }
  }

  /** What an accepted configuration can be relied on for: one of three memory sizes, one of two page
      sizes, and at least one image. */
  lemma AcceptedConfig(args: seq<string>, config: Config, seen: set<Kind>, result: Config)
    requires Parse(args, config, seen) == Ok(result)
    requires Memory in seen ==> config.memorySize in {2 * MIB, 4 * MIB, 8 * MIB}
    requires Page in seen ==> config.pageSize in {4 * KIB, 2 * MIB}
    requires Guest in seen ==> config.guestImages != []
    ensures result.memorySize in {2 * MIB, 4 * MIB, 8 * MIB}
    ensures result.pageSize in {4 * KIB, 2 * MIB}
    ensures result.guestImages != []
    decreases |args|
  {
    if args != [] {
      var g, tail := FirstGroup(args, config, seen);
      AcceptedConfig(tail, Apply(g, config), seen + {GroupKind(g)}, result);
    }
  }

  // ----- configurations, written out

  /** One option of a command line, in its long or short spelling. */
  datatype Choice = Choice(kind: Kind, long: bool)

  predicate ValidConfig(c: Config) {
    && (c.memorySize == 0x20_0000 || c.memorySize == 0x40_0000 || c.memorySize == 0x80_0000)
    && (c.pageSize == 0x1000 || c.pageSize == 0x20_0000)
    && AreOperands(c.guestImages)
    && (c.sharedFiles == [] || AreOperands(c.sharedFiles))
  }

  /** What the option says for this configuration: memory in MiB, the page size as 4 (KiB) or 2 (MiB). */
  function Words(c: Config, choice: Choice): seq<string> {
    match choice.kind
    case Memory =>
      [if choice.long then "--memory" else "-m"] +
      [if c.memorySize == 0x20_0000 then "2" else if c.memorySize == 0x40_0000 then "4" else "8"]
    case Page =>
      [if choice.long then "--page" else "-p"] + [if c.pageSize == 0x1000 then "4" else "2"]
    case Guest => [if choice.long then "--guest" else "-g"] + c.guestImages
    case File => [if choice.long then "--file" else "-f"] + c.sharedFiles
  }

  function Sentence(c: Config, order: seq<Choice>): seq<string> {
    if order == [] then [] else Words(c, order[0]) + Sentence(c, order[1..])
  }

  predicate Mentions(order: seq<Choice>, kind: Kind) {
    exists k :: 0 <= k < |order| && order[k].kind == kind
  }

  /** Each option at most once, and all there is to say is said. */
  predicate IsOrder(c: Config, order: seq<Choice>) {
    && (forall j, k :: 0 <= j < k < |order| ==> order[j].kind != order[k].kind)
    && Mentions(order, Memory) && Mentions(order, Page) && Mentions(order, Guest)
    && (Mentions(order, File) <==> c.sharedFiles != [])
  }

  /** The arguments say this configuration, in some order and spelling. */
  ghost predicate Says(args: seq<string>, c: Config) {
    ValidConfig(c) && exists order :: IsOrder(c, order) && Sentence(c, order) == args
  }

  /** Two configurations say the same of one kind of option. */
  predicate Agree(kind: Kind, c: Config, c': Config) {
    match kind
    case Memory => c.memorySize == c'.memorySize
    case Page => c.pageSize == c'.pageSize
    case Guest => c.guestImages == c'.guestImages
    case File => c.sharedFiles == c'.sharedFiles
  }

  function GroupOf(c: Config, choice: Choice): Group {
    match choice.kind
    case Memory =>
      var size := if c.memorySize == 0x20_0000 then "2" else if c.memorySize == 0x40_0000 then "4" else "8";
      MemoryGroup(choice.long, size)
    case Page => PageGroup(choice.long, if c.pageSize == 0x1000 then "4" else "2")
    case Guest => GuestGroup(choice.long, c.guestImages)
    case File => FileGroup(choice.long, c.sharedFiles)
  }

  function GroupsOf(c: Config, order: seq<Choice>): seq<Group> {
    if order == [] then [] else [GroupOf(c, order[0])] + GroupsOf(c, order[1..])
  }

  /** Options of different kinds, none of them in `seen`. */
  predicate Fresh(order: seq<Choice>, seen: set<Kind>) {
    && (forall j, k :: 0 <= j < k < |order| ==> order[j].kind != order[k].kind)
    && (forall k :: 0 <= k < |order| ==> order[k].kind !in seen)
  }

  lemma GroupOfSays(c: Config, choice: Choice, c0: Config)
    requires ValidConfig(c) && (choice.kind == File ==> c.sharedFiles != [])
    ensures var g := GroupOf(c, choice);
            && GroupOk(g) && GroupKind(g) == choice.kind && Render(g) == Words(c, choice)
            && Agree(choice.kind, Apply(g, c0), c)
            && (forall k :: k != choice.kind ==> Agree(k, Apply(g, c0), c0))
  {
  }

  lemma {:induction false} SaidInOrder(c: Config, order: seq<Choice>, c0: Config, seen: set<Kind>)
    requires ValidConfig(c) && Fresh(order, seen) && (Mentions(order, File) ==> c.sharedFiles != [])
    ensures var gs := GroupsOf(c, order);
            && GroupsOk(gs, seen) && RenderAll(gs, []) == Sentence(c, order)
            && (forall k :: k in Kinds(gs, seen) <==> k in seen || Mentions(order, k))
            && (forall k :: Agree(k, ApplyAll(gs, c0, seen), if Mentions(order, k) then c else c0))
  {
    if order != [] {
      var choice, rest := order[0], order[1..];
      var g := GroupOf(c, choice);
      var c1, seen1 := Apply(g, c0), seen + {choice.kind};
      assert order == [choice] + rest;
      MentionsMore(choice, rest);
      GroupOfSays(c, choice, c0);
      SaidInOrder(c, rest, c1, seen1);
      assert GroupsOf(c, order)[1..] == GroupsOf(c, rest);
      var end := ApplyAll(GroupsOf(c, rest), c1, seen1);
      assert !Mentions(rest, choice.kind);
      forall k: Kind
        ensures Agree(k, end, if Mentions(order, k) then c else c0)
      {
        AgreeTransitive(k, end, if Mentions(rest, k) then c else c1, if Mentions(order, k) then c else c0);
      }
    }
  }

  lemma AgreeTransitive(kind: Kind, a: Config, b: Config, c: Config)
    ensures Agree(kind, a, b) && Agree(kind, b, c) ==> Agree(kind, a, c)
    ensures Agree(kind, a, a)
  {
  }

  function OrderOf(gs: seq<Group>): seq<Choice> {
    if gs == [] then [] else [Choice(GroupKind(gs[0]), gs[0].long)] + OrderOf(gs[1..])
  }

  lemma SameWords(c: Config, c': Config, choice: Choice)
    requires Agree(choice.kind, c, c')
    ensures Words(c, choice) == Words(c', choice)
  {
  }

  lemma GroupSays(g: Group, c0: Config)
    requires GroupOk(g)
    ensures Words(Apply(g, c0), Choice(GroupKind(g), g.long)) == Render(g)
  {
  }

  lemma {:induction false} OrderIsSaid(gs: seq<Group>, c0: Config, seen: set<Kind>)
    requires GroupsOk(gs, seen)
    ensures var c, order := ApplyAll(gs, c0, seen), OrderOf(gs);
            && Sentence(c, order) == RenderAll(gs, []) && Fresh(order, seen)
            && (forall k :: k in Kinds(gs, seen) <==> k in seen || Mentions(order, k))
            && (forall k :: !Mentions(order, k) ==> Agree(k, c, c0))
            && (Mentions(order, Memory) ==> c.memorySize in {0x20_0000, 0x40_0000, 0x80_0000})
            && (Mentions(order, Page) ==> c.pageSize in {0x1000, 0x20_0000})
            && (Mentions(order, Guest) ==> AreOperands(c.guestImages))
            && (Mentions(order, File) ==> AreOperands(c.sharedFiles))
  {
    if gs != [] {
      var g, c1 := gs[0], Apply(gs[0], c0);
      var kind, rest := GroupKind(g), OrderOf(gs[1..]);
      OrderIsSaid(gs[1..], c1, seen + {kind});
      var c := ApplyAll(gs, c0, seen);
      assert OrderOf(gs) == [Choice(kind, g.long)] + rest;
      MentionsMore(Choice(kind, g.long), rest);
      assert !Mentions(rest, kind);
      SameWords(c, c1, Choice(kind, g.long));
      GroupSays(g, c0);
    }
  }

  lemma MentionsMore(choice: Choice, rest: seq<Choice>)
    ensures forall k :: Mentions([choice] + rest, k) <==> k == choice.kind || Mentions(rest, k)
  {
    var order := [choice] + rest;
    assert order[0] == choice;
    forall k: Kind
      ensures Mentions(order, k) <==> k == choice.kind || Mentions(rest, k)
    {
      if Mentions(rest, k) {
        var j :| 0 <= j < |rest| && rest[j].kind == k;
        assert order[j + 1].kind == k;
      }
      if Mentions(order, k) && k != choice.kind {
        var j :| 0 <= j < |order| && order[j].kind == k;
        assert rest[j - 1].kind == k;
      }
    }
  }

  lemma AgreeOnAll(c: Config, c': Config)
    requires forall k :: Agree(k, c, c')
    ensures c == c'
  {
    assert Agree(Memory, c, c') && Agree(Page, c, c') && Agree(Guest, c, c') && Agree(File, c, c');
  }

  lemma SaidIsAccepted(args: seq<string>, c: Config, order: seq<Choice>)
    requires ValidConfig(c) && IsOrder(c, order) && Sentence(c, order) == args
    ensures IsCommandLine(args, GroupsOf(c, order), c)
  {
    var gs := GroupsOf(c, order);
    SaidInOrder(c, order, EMPTY_CONFIG, {});
    var end := ApplyAll(gs, EMPTY_CONFIG, {});
    forall k: Kind
      ensures Agree(k, end, c)
    {
      AgreeTransitive(k, end, if Mentions(order, k) then c else EMPTY_CONFIG, c);
    }
    AgreeOnAll(end, c);
  }

  lemma AcceptedIsSaid(args: seq<string>, gs: seq<Group>, c: Config)
    requires IsCommandLine(args, gs, c)
    ensures ValidConfig(c) && IsOrder(c, OrderOf(gs)) && Sentence(c, OrderOf(gs)) == args
  {
    OrderIsSaid(gs, EMPTY_CONFIG, {});
    assert !Mentions(OrderOf(gs), File) ==> Agree(File, c, EMPTY_CONFIG);
  }

  /** The whole of the command line, both ways: the arguments are accepted with a configuration iff they say
      it, in any order of the options and in either spelling of each. */
  lemma ConfigurationsExactly(args: seq<string>, c: Config)
    ensures Parse(args, EMPTY_CONFIG, {}) == Ok(c) <==> Says(args, c)
  {
    AcceptsExactlyCommandLines(args, c);
    if gs :| IsCommandLine(args, gs, c) {
      AcceptedIsSaid(args, gs, c);
    }
    if Says(args, c) {
      var order :| IsOrder(c, order) && Sentence(c, order) == args;
      SaidIsAccepted(args, c, order);
    }
  }
}
