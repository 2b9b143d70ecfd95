/**
  Command dispatch and argument checking of the `cli` package. The process
  arguments are a parameter (`args[0]` is the program name), the operating
  system name is a parameter, and every `os.Exit` becomes a returned exit
  code with a description of what was printed.
 */
module Cli {
  import opened Wrappers
  import opened Strings
  import opened Errors
  import Validator
  import Clivrsn

  /** What a command runs: the built-in version update, or a handler of the tool's own. */
  datatype Action = UpdateVersionAction | UserAction(id: nat)

  datatype Command = Command(verb: string, noun: string, supports: seq<string>, action: Action)

  /** What was written to standard error before exiting. */
  datatype Report =
    | Silent
    | HelpReport(usage: string, description: string, flags: bool)
    | NotEnoughArgs(usage: string, description: string, flags: bool)
    | InvalidInputReport(errorText: string, usage: string, description: string, flags: bool)
    | ExecutionError(errorText: string)

  /** A process exit: its status and its error output. */
  datatype Exit = Exit(code: int, report: Report)

  /**
    The text of a report. When `flags` holds, the flag set's defaults (printed
    by the `flag` package) follow it.
   */
  function Render(r: Report): string {
    match r
    case Silent => ""
    case HelpReport(u, d, f) =>
      "Usage:\n  " + u + "\n\nDescription:\n  " + d + "\n\n" + (if f then "Available flags:\n" else "")
    case NotEnoughArgs(u, d, f) =>
      "Error running command:\n\nInvalid input, not enough arguments.\n\nUsage:\n  " + u
      + "\n\nDescription:\n  " + d + "\n\n" + (if f then "Available flags:\n" else "")
    case InvalidInputReport(t, u, d, _) =>
      t + "\nUsage:\n  " + u + "\n\nDescription:\n  " + d + "\n\n"
    case ExecutionError(t) =>
      "Error running command:\n\n" + t + "\n"
  }

  // ---------------------------------------------------------------------------
  // ShouldHaveArgs

  /** What `ShouldHaveArgs` decides: exit with help or a usage error, parse the trailing flags, or go on. */
  datatype Gate = Help | UsageError | ParseFlags(rest: seq<string>) | Proceed

  /** The argument positions whose leading dash ends the scan: `lo` to `hi`, both included. */
  datatype Guard = Guard(lo: nat, hi: int)

  /**
    The positions the source checks (`index <= num_args`): positions 0 to
    `num_args`. With `num_args = 1`, as both callers pass, that is only the
    program name and the verb; a required argument is checked only when
    `num_args >= 3`, and then only the first `num_args - 2` of them.
   */
  function AsWrittenGuard(numArgs: nat): Guard {
    Guard(0, numArgs)
  }

  /** The positions of the required arguments themselves, `3` to `num_args + 2`. */
  function IntendedGuard(numArgs: nat): Guard {
    Guard(3, numArgs + 2)
  }

  /** Argument `i` ends the scan: it is `-h`, or it starts with a dash at a guarded position. */
  predicate Stops(args: seq<string>, i: int, g: Guard)
    requires 0 <= i < |args|
  {
    args[i] == "-h" || (g.lo <= i <= g.hi && HasPrefix(args[i], "-"))
  }

  /** Argument `i` is the first one that ends the scan. */
  predicate FirstStop(args: seq<string>, i: int, g: Guard) {
    0 <= i < |args| && Stops(args, i, g) && forall j :: 0 <= j < i ==> !Stops(args, j, g)
  }

  predicate NoStop(args: seq<string>, g: Guard) {
    forall j :: 0 <= j < |args| ==> !Stops(args, j, g)
  }

  /** The scan ends at a `-h`: help is printed. */
  predicate AsksHelp(args: seq<string>, g: Guard) {
    exists i :: 0 <= i < |args| && FirstStop(args, i, g) && args[i] == "-h"
  }

  /** The scan ends at a dash argument, or finds too few arguments: a usage error. */
  predicate Misused(args: seq<string>, g: Guard, numArgs: nat) {
    (exists i :: 0 <= i < |args| && FirstStop(args, i, g) && args[i] != "-h") || (NoStop(args, g) && |args| < numArgs + 3)
  }

  /**
    `ShouldHaveArgs`: `num_args` positional arguments are required after the
    verb and the noun, so `num_args + 3` arguments in all. The source checks
    the positions of `AsWrittenGuard(num_args)` for a leading dash.
   */
  method ShouldHaveArgs(numArgs: nat, guard: Guard, args: seq<string>, hasFlagset: bool) returns (gate: Gate)
    ensures gate == Help <==> AsksHelp(args, guard)
    ensures gate == UsageError <==> Misused(args, guard, numArgs)
    ensures gate.ParseFlags? <==> NoStop(args, guard) && |args| > numArgs + 3 && hasFlagset
    ensures gate.ParseFlags? ==> gate.rest == args[numArgs + 3..]
    ensures gate == Proceed <==>
      NoStop(args, guard) && |args| >= numArgs + 3 && !(|args| > numArgs + 3 && hasFlagset)
  {
    var realArgs := numArgs + 3;
    var index := 0;
    while index < |args|
      invariant 0 <= index <= |args|
      invariant forall j :: 0 <= j < index ==> !Stops(args, j, guard)
    {
      var arg := args[index];
      if arg == "-h" {
        assert FirstStop(args, index, guard);
        return Help;
      }
      if guard.lo <= index <= guard.hi && HasPrefix(arg, "-") {
        assert FirstStop(args, index, guard);
        return UsageError;
      }
      index := index + 1;
    }
    if |args| < realArgs {
      gate := UsageError;
    } else if |args| > realArgs && hasFlagset {
      gate := ParseFlags(args[realArgs..]);
    } else {
      gate := Proceed;
    }
  }

  /** Some argument ends the scan, so a first one does. */
  lemma {:induction false} FirstStopExists(args: seq<string>, g: Guard, k: int)
    requires 0 <= k < |args| && Stops(args, k, g)
    ensures exists i :: FirstStop(args, i, g)
    decreases k
  {
    if forall j :: 0 <= j < k ==> !Stops(args, j, g) {
      assert FirstStop(args, k, g);
    } else {
      var j :| 0 <= j < k && Stops(args, j, g);
      FirstStopExists(args, g, j);
    }
  }

  /**
    As written, a required argument past position `num_args` is never checked:
    `clibuild run example -example=world` (one required argument) passes the
    scan, and the handler receives the flag as its input.
   */
  lemma DashArgumentSlipsThrough()
    ensures NoStop(["clibuild", "run", "example", "-example=world"], AsWrittenGuard(1))
    ensures !NoStop(["clibuild", "run", "example", "-example=world"], IntendedGuard(1))
  {
    var args := ["clibuild", "run", "example", "-example=world"];
    forall j | 0 <= j < |args|
      ensures !Stops(args, j, AsWrittenGuard(1))
    {
      if j == 0 {
        assert args[0][0] == 'c';
      } else if j == 1 {
        assert args[1][0] == 'r';
      }
    }
    assert args[3][0] == '-';
    assert Stops(args, 3, IntendedGuard(1));
  }

  /**
    With the intended guard, any required argument that starts with a dash
    ends the command with help or a usage error.
   */
  lemma IntendedGuardCatchesDashArgument(numArgs: nat, args: seq<string>, k: int)
    requires 3 <= k < numArgs + 3 && k < |args| && HasPrefix(args[k], "-")
    ensures AsksHelp(args, IntendedGuard(numArgs)) || Misused(args, IntendedGuard(numArgs), numArgs)
    ensures !NoStop(args, IntendedGuard(numArgs))
  {
    assert Stops(args, k, IntendedGuard(numArgs));
    FirstStopExists(args, IntendedGuard(numArgs), k);
  }

  /** Exit status and report of a gate that ends the process, as the source prints them. */
  function GateExit(gate: Gate, usage: string, description: string, hasFlagset: bool): (x: Option<Exit>)
    ensures x.Some? <==> gate == Help || gate == UsageError
    ensures x.Some? ==> (x.value.code == 0 <==> gate == Help) && (x.value.code == 1 <==> gate == UsageError)
  {
    match gate
    case Help => Some(Exit(0, HelpReport(usage, description, hasFlagset)))
    case UsageError => Some(Exit(1, NotEnoughArgs(usage, description, hasFlagset)))
    case _ => None
  }

  // ---------------------------------------------------------------------------
  // osSupportsCommand and printTopUsage

  /** `osSupportsCommand`: search the command's supported systems for the current one. */
  method OsSupportsCommand(cmd: Command, goos: string) returns (supported: bool)
    ensures supported <==> goos in cmd.supports
  {
    for i := 0 to |cmd.supports|
      invariant forall j :: 0 <= j < i ==> cmd.supports[j] != goos
    {
      if goos == cmd.supports[i] {
        return true;
      }
    }
    return false;
  }

  /** The `Verb Noun` entries of the supported commands among the first `n` of the table. */
  function Listed(table: seq<Command>, goos: string, n: nat): (r: seq<string>)
    requires n <= |table|
    ensures |r| <= n
    ensures forall i :: 0 <= i < n && goos in table[i].supports ==> table[i].verb + " " + table[i].noun in r
  {
    if n == 0 then []
    else
      var earlier := Listed(table, goos, n - 1);
      var cmd := table[n - 1];
      if goos in cmd.supports then earlier + [cmd.verb + " " + cmd.noun] else earlier
  }

  /** Every listed line names a command of the table that the system supports. */
  lemma {:induction false} ListedSound(table: seq<Command>, goos: string, n: nat, k: nat)
    requires n <= |table| && k < |Listed(table, goos, n)|
    ensures exists i :: (0 <= i < n && goos in table[i].supports
      && Listed(table, goos, n)[k] == table[i].verb + " " + table[i].noun)
    decreases n
  {
    var earlier := Listed(table, goos, n - 1);
    if k < |earlier| {
      ListedSound(table, goos, n - 1, k);
      var i :| 0 <= i < n - 1 && goos in table[i].supports && earlier[k] == table[i].verb + " " + table[i].noun;
      assert Listed(table, goos, n)[k] == earlier[k];
    } else {
      assert goos in table[n - 1].supports;
    }
  }

  /** Listing two tables one after the other lists their concatenation: table order is kept. */
  lemma {:induction false} ListedAppend(a: seq<Command>, b: seq<Command>, goos: string, n: nat)
    requires n <= |b|
    ensures Listed(a + b, goos, |a| + n) == Listed(a, goos, |a|) + Listed(b, goos, n)
    decreases n
  {
    if n == 0 {
      ListedPrefix(a, b, goos, |a|);
    } else {
      ListedAppend(a, b, goos, n - 1);
      var cmd := b[n - 1];
      var tail := if goos in cmd.supports then [cmd.verb + " " + cmd.noun] else [];
      assert (a + b)[|a| + n - 1] == cmd;
      assert Listed(a + b, goos, |a| + n) == Listed(a + b, goos, |a| + n - 1) + tail;
      assert Listed(b, goos, n) == Listed(b, goos, n - 1) + tail;
      assert Listed(a, goos, |a|) + Listed(b, goos, n - 1) + tail
          == Listed(a, goos, |a|) + (Listed(b, goos, n - 1) + tail);
    }
  }

  lemma {:induction false} ListedPrefix(a: seq<Command>, b: seq<Command>, goos: string, n: nat)
    requires n <= |a|
    ensures Listed(a + b, goos, n) == Listed(a, goos, n)
    decreases n
  {
    if n > 0 {
      ListedPrefix(a, b, goos, n - 1);
      assert (a + b)[n - 1] == a[n - 1];
    }
  }

  function UsageHeader(toolName: string): string {
    "Usage:\n  " + toolName + " [VERB] [NOUN] [ARGUMENTS] [FLAGS]\n\nAvailable commands:\n"
  }

  function Indent(lines: seq<string>): (r: seq<string>)
    ensures |r| == |lines| && forall k :: 0 <= k < |r| ==> r[k] == "    " + lines[k]
  {
    seq(|lines|, k requires 0 <= k < |lines| => "    " + lines[k])
  }

  /** What `printTopUsage` prints. */
  function TopUsageText(toolName: string, table: seq<Command>, goos: string): string {
    UsageHeader(toolName) + Terminated(Indent(Listed(table, goos, |table|)))
  }

  /** The line `printTopUsage` prints for a command. */
  function Entry(cmd: Command): string {
    cmd.verb + " " + cmd.noun
  }

  /** One turn of the listing loop, as text. */
  lemma ListingStep(table: seq<Command>, goos: string, i: nat)
    requires i < |table|
    ensures goos in table[i].supports ==> (Terminated(Indent(Listed(table, goos, i + 1)))
      == Terminated(Indent(Listed(table, goos, i))) + ("    " + Entry(table[i])) + "\n")
    ensures goos !in table[i].supports ==> Listed(table, goos, i + 1) == Listed(table, goos, i)
  {
    var before := Listed(table, goos, i);
    if goos in table[i].supports {
      var line := Entry(table[i]);
      assert Listed(table, goos, i + 1) == before + [line];
      assert Indent(before + [line]) == Indent(before) + ["    " + line];
      TerminatedAppend(Indent(before), "    " + line);
    } else {
      assert Listed(table, goos, i + 1) == before;
    }
  }

  /** `printTopUsage`: the header, then one indented `Verb Noun` line per supported command. */
  method PrintTopUsage(toolName: string, table: seq<Command>, goos: string) returns (text: string)
    ensures text == TopUsageText(toolName, table, goos)
  {
    var listing := "";
    for i := 0 to |table|
      invariant listing == Terminated(Indent(Listed(table, goos, i)))
    {
      var cmd := table[i];
      var supported := OsSupportsCommand(cmd, goos);
      ListingStep(table, goos, i);
      if supported {
        var line := cmd.verb + " " + cmd.noun;
        listing := listing + ("    " + line) + "\n";
      }
    }
    text := UsageHeader(toolName) + listing;
  }

  // ---------------------------------------------------------------------------
  // HandleCommandError

  /**
    `HandleCommandError` as written: only a `*clierr.InvalidInput` shows the
    usage; every other error, the validator's `*errtype.InvalidInput`
    included, is reported as an execution error.
   */
  function HandleCommandErrorAsWritten(err: Option<Error>, usage: string, description: string, hasFlagset: bool): (x: Exit)
    ensures x.code == 0 <==> err.None?
    ensures x.code == 0 || x.code == 1
    ensures x.report.InvalidInputReport? <==> err.Some? && err.value.CliInput?
    ensures x.report.ExecutionError? <==> err.Some? && !err.value.CliInput?
    ensures err.Some? ==> (x.report.InvalidInputReport? || x.report.ExecutionError?) && x.report.errorText == err.value.Text()
  {
    match err
    case None => Exit(0, Silent)
    case Some(e) =>
      if e.CliInput? then Exit(1, InvalidInputReport(e.Text(), usage, description, hasFlagset))
      else Exit(1, ExecutionError(e.Text()))
  }

  /** True iff the error is one of the two invalid-input kinds: a user mistake. */
  predicate IsInvalidInput(e: Error) {
    e.CliInput? || e.IsTypedInvalidInput()
  }

  /** `HandleCommandError` as intended: both invalid-input kinds show the usage. */
  function HandleCommandError(err: Option<Error>, usage: string, description: string, hasFlagset: bool): (x: Exit)
    ensures x.code == 0 <==> err.None?
    ensures x.code == 0 || x.code == 1
    ensures x.report.InvalidInputReport? <==> err.Some? && IsInvalidInput(err.value)
    ensures x.report.ExecutionError? <==> err.Some? && !IsInvalidInput(err.value)
    ensures err.Some? ==> (x.report.InvalidInputReport? || x.report.ExecutionError?) && x.report.errorText == err.value.Text()
  {
    match err
    case None => Exit(0, Silent)
    case Some(e) =>
      if IsInvalidInput(e) then Exit(1, InvalidInputReport(e.Text(), usage, description, hasFlagset))
      else Exit(1, ExecutionError(e.Text()))
  }

  /**
    Every failure the validator reports for known rules is an invalid-input
    error, yet the handler as written reports it without the usage text; the
    intended handler shows the usage. Both exit with status 1.
   */
  lemma ValidatorFailureLosesUsage(records: seq<Validator.Record>, glob: Validator.Glob,
                                   usage: string, description: string, hasFlagset: bool)
    requires Validator.ValidateParams(records, glob).Some?
    requires forall i, j :: 0 <= i < |records| && 0 <= j < |records[i].rules| ==> Validator.IsKnownRule(records[i].rules[j])
    ensures var err := Validator.ValidateParams(records, glob);
      HandleCommandErrorAsWritten(err, usage, description, hasFlagset).report.ExecutionError?
      && HandleCommandError(err, usage, description, hasFlagset).report.InvalidInputReport?
  {
    Validator.FirstFailureWins(records, glob);
  }

  /** The intended handler prints an invalid input's text, then the usage and the description. */
  lemma ReportedWithUsage(e: Error, usage: string, description: string, hasFlagset: bool)
    requires IsInvalidInput(e)
    ensures HasPrefix(Render(HandleCommandError(Some(e), usage, description, hasFlagset).report),
                      e.Text() + "\nUsage:\n  " + usage + "\n\nDescription:\n  " + description)
  {
    var t := e.Text();
    assert HandleCommandError(Some(e), usage, description, hasFlagset).report
        == InvalidInputReport(t, usage, description, hasFlagset);
    var head := t + "\nUsage:\n  " + usage + "\n\nDescription:\n  " + description;
    var text := Render(InvalidInputReport(t, usage, description, hasFlagset));
    assert text == head + "\n\n";
    assert text[..|head|] == head;
  }

  /**
    The handler as written prints any error that is not a `*clierr.InvalidInput`,
    the validator's included, as an execution error with no usage.
   */
  lemma ReportedWithoutUsage(e: Error, usage: string, description: string, hasFlagset: bool)
    requires !e.CliInput?
    ensures Render(HandleCommandErrorAsWritten(Some(e), usage, description, hasFlagset).report)
      == "Error running command:\n\n" + e.Text() + "\n"
  {
    assert HandleCommandErrorAsWritten(Some(e), usage, description, hasFlagset).report == ExecutionError(e.Text());
  }

  // ---------------------------------------------------------------------------
  // RunCommand

  /** The built-in commands appended to every tool's table. */
  function DefaultCommands(): seq<Command> {
    [Command("update", "version", ["linux", "windows"], UpdateVersionAction)]
  }

  /** The table `RunCommand` scans: the tool's commands, then the built-in ones. */
  function CommandTable(userCommands: seq<Command>): seq<Command> {
    userCommands + DefaultCommands()
  }

  /** The dispatch condition: enough arguments, same verb and noun, supported system. */
  predicate Matches(cmd: Command, args: seq<string>, goos: string) {
    |args| > 2 && args[1] == cmd.verb && args[2] == cmd.noun && goos in cmd.supports
  }

  /** Increasing indices of the matching entries among the first `n` of the table. */
  function Matching(table: seq<Command>, args: seq<string>, goos: string, n: nat): (r: seq<nat>)
    requires n <= |table|
    ensures forall k :: 0 <= k < |r| ==> r[k] < n
    ensures |args| <= 2 ==> r == []
  {
    if n == 0 then []
    else Matching(table, args, goos, n - 1) + (if Matches(table[n - 1], args, goos) then [n - 1] else [])
  }

  /** Every index `Matching` lists is a matching entry. */
  lemma {:induction false} MatchingSound(table: seq<Command>, args: seq<string>, goos: string, n: nat)
    requires n <= |table|
    ensures forall k :: 0 <= k < |Matching(table, args, goos, n)| ==>
      Matches(table[Matching(table, args, goos, n)[k]], args, goos)
    decreases n
  {
    if n > 0 {
      MatchingSound(table, args, goos, n - 1);
      var earlier, r := Matching(table, args, goos, n - 1), Matching(table, args, goos, n);
      var last := if Matches(table[n - 1], args, goos) then [n - 1] else [];
      assert r == earlier + last;
      forall k | 0 <= k < |r|
        ensures Matches(table[r[k]], args, goos)
      {
        if k < |earlier| {
          assert r[k] == earlier[k];
        } else {
          assert r[k] == last[0] == n - 1;
        }
      }
    }
  }

  /** Every matching entry is listed by `Matching`. */
  lemma {:induction false} MatchingComplete(table: seq<Command>, args: seq<string>, goos: string, n: nat)
    requires n <= |table|
    ensures forall i :: 0 <= i < n && Matches(table[i], args, goos) ==> i in Matching(table, args, goos, n)
    decreases n
  {
    if n > 0 {
      MatchingComplete(table, args, goos, n - 1);
      var earlier := Matching(table, args, goos, n - 1);
      assert forall i :: i in earlier ==> i in Matching(table, args, goos, n);
    }
  }

  /** `Matching` lists indices in increasing table order. */
  lemma {:induction false} MatchingIncreasing(table: seq<Command>, args: seq<string>, goos: string, n: nat)
    requires n <= |table|
    ensures forall k1, k2 :: 0 <= k1 < k2 < |Matching(table, args, goos, n)| ==>
      Matching(table, args, goos, n)[k1] < Matching(table, args, goos, n)[k2]
    decreases n
  {
    if n > 0 {
      MatchingIncreasing(table, args, goos, n - 1);
      var earlier, r := Matching(table, args, goos, n - 1), Matching(table, args, goos, n);
      var last := if Matches(table[n - 1], args, goos) then [n - 1] else [];
      assert r == earlier + last;
      forall k1, k2 | 0 <= k1 < k2 < |r|
        ensures r[k1] < r[k2]
      {
        assert r[k1] == earlier[k1];
        if k2 >= |earlier| {
          assert r[k2] == last[0] == n - 1;
        } else {
          assert r[k2] == earlier[k2];
        }
      }
    }
  }

  lemma {:induction false} MatchingPrefix(table: seq<Command>, args: seq<string>, goos: string, i: nat, n: nat)
    requires i <= n <= |table|
    ensures Matching(table, args, goos, i) <= Matching(table, args, goos, n)
    decreases n - i
  {
    if i < n {
      MatchingPrefix(table, args, goos, i, n - 1);
    }
  }

  /**
    Whether running the entry's handler ends the process. The built-in handler
    always does (see `UpdateVersionHandler`); a tool's own handler may return.
   */
  predicate Exits(cmd: Command, userExits: nat -> bool) {
    match cmd.action
    case UpdateVersionAction => true
    case UserAction(id) => userExits(id)
  }

  /** How `RunCommand` ends: inside the handler at table index `index`, or by its own exit. */
  datatype Ending = Handled(index: nat) | Exited(code: int, stdout: string)

  /** What `RunCommand` does once no handler has ended the process: only `args[1]` is looked at. */
  function Fallback(toolName: string, toolVersion: string, table: seq<Command>, args: seq<string>, goos: string): (e: Ending)
    ensures e.Exited?
    ensures e.code == 0 <==> |args| > 1 && (args[1] == "--version" || args[1] == "-h")
    ensures e.code == 0 || e.code == 1
    ensures |args| > 1 && args[1] == "--version" ==> e.stdout == toolVersion + "\n"
    ensures |args| > 1 && args[1] == "-h" ==> e.stdout == TopUsageText(toolName, table, goos)
    ensures e.code == 1 ==>
      e.stdout == "Unknown " + toolName + " command \"" + Join(args, ' ') + "\"\n\n" + TopUsageText(toolName, table, goos)
  {
    var usage := TopUsageText(toolName, table, goos);
    if |args| > 1 && args[1] == "--version" then Exited(0, toolVersion + "\n")
    else if |args| > 1 && args[1] == "-h" then Exited(0, usage)
    else Exited(1, "Unknown " + toolName + " command \"" + Join(args, ' ') + "\"\n\n" + usage)
  }

  /**
    The dispatch loop of `RunCommand`: invoke every matching entry in table
    order (there is no `break`) until a handler ends the process. `invoked`
    lists the table indices whose handlers ran.
   */
  method Dispatch(table: seq<Command>, args: seq<string>, goos: string, userExits: nat -> bool)
    returns (invoked: seq<nat>, handled: bool)
    ensures invoked <= Matching(table, args, goos, |table|)
    ensures forall k :: 0 <= k < |invoked| - 1 ==> !Exits(table[invoked[k]], userExits)
    ensures handled <==> |invoked| > 0 && Exits(table[invoked[|invoked| - 1]], userExits)
    ensures !handled ==> invoked == Matching(table, args, goos, |table|)
  {
    invoked := [];
    if |args| > 2 {
      var i := 0;
      while i < |table|
        invariant 0 <= i <= |table|
        invariant invoked == Matching(table, args, goos, i)
        invariant forall k :: 0 <= k < |invoked| ==> !Exits(table[invoked[k]], userExits)
      {
        var cmd := table[i];
        var supported := OsSupportsCommand(cmd, goos);
        if args[1] == cmd.verb && args[2] == cmd.noun && supported {
          invoked := invoked + [i];
          if Exits(cmd, userExits) {
            MatchingPrefix(table, args, goos, i + 1, |table|);
            return invoked, true;
          }
        }
        i := i + 1;
      }
    }
    handled := false;
  }

  /**
    `RunCommand`: append the built-in commands, dispatch, and when no handler
    ended the process fall back on `--version`, `-h` or the unknown-command
    listing.
   */
  method RunCommand(toolName: string, toolVersion: string, userCommands: seq<Command>,
                    args: seq<string>, goos: string, userExits: nat -> bool)
    returns (invoked: seq<nat>, ending: Ending)
    ensures var table := CommandTable(userCommands);
      var all := Matching(table, args, goos, |table|);
      && invoked <= all
      && (forall k :: 0 <= k < |invoked| - 1 ==> !Exits(table[invoked[k]], userExits))
      && (ending.Handled? <==> |invoked| > 0 && Exits(table[invoked[|invoked| - 1]], userExits))
      && (ending.Handled? ==> ending.index == invoked[|invoked| - 1])
      && (!ending.Handled? ==> invoked == all && ending == Fallback(toolName, toolVersion, table, args, goos))
  {
    var table := userCommands + DefaultCommands();
    var handled;
    invoked, handled := Dispatch(table, args, goos, userExits);
    if handled {
      return invoked, Handled(invoked[|invoked| - 1]);
    }
    var usage := PrintTopUsage(toolName, table, goos);
    if |args| > 1 && args[1] == "--version" {
      ending := Exited(0, toolVersion + "\n");
    } else if |args| > 1 && args[1] == "-h" {
      ending := Exited(0, usage);
    } else {
      ending := Exited(1, "Unknown " + toolName + " command \"" + Join(args, ' ') + "\"\n\n" + usage);
    }
  }

  /**
    The built-in entry comes after the tool's own: when a tool entry matches
    too, the first handler to run is the tool's, and the built-in one, which
    always exits, can only be the last to run.
   */
  lemma ToolCommandsComeFirst(userCommands: seq<Command>, args: seq<string>, goos: string, j: nat)
    requires j < |userCommands| && Matches(userCommands[j], args, goos)
    ensures var table := CommandTable(userCommands);
      var all := Matching(table, args, goos, |table|);
      |all| > 0 && all[0] < |userCommands|
      && forall k :: 0 <= k < |all| && all[k] == |userCommands| ==> k == |all| - 1
  {
    var table := CommandTable(userCommands);
    var all := Matching(table, args, goos, |table|);
    MatchingComplete(table, args, goos, |table|);
    MatchingIncreasing(table, args, goos, |table|);
    assert table[j] == userCommands[j];
    assert j in all;
  }

  /** The built-in `update version` entry answers only on Linux and Windows. */
  lemma UpdateVersionOnlyOnLinuxAndWindows(userCommands: seq<Command>, args: seq<string>, goos: string)
    ensures var table := CommandTable(userCommands);
      Matches(table[|userCommands|], args, goos)
      <==> |args| > 2 && args[1] == "update" && args[2] == "version" && (goos == "linux" || goos == "windows")
  {
  }

  // ---------------------------------------------------------------------------
  // The built-in `update version` handler

  function UpdateUsage(toolName: string): string {
    toolName + " update version [VERSION FILE] [NEW VERSION]"
  }

  function UpdateDescription(toolName: string): string {
    "Update " + toolName + "'s version, defaults to the next Z release if no [NEW VERSION] is given"
  }

  /** The error an effect reports, if any. */
  function ErrorOf(effect: Clivrsn.Effect): Option<Error> {
    if effect.Fail? then Some(effect.error) else None
  }

  /**
    `clibuild update version <file>`, with any file name but `-h`, passes the
    argument scan of the built-in handler as written: only positions 0 and 1
    are checked for a dash.
   */
  lemma UpdateArgsPassGate(file: string)
    requires file != "-h"
    ensures NoStop(["clibuild", "update", "version", file], AsWrittenGuard(1))
  {
    var args := ["clibuild", "update", "version", file];
    forall j | 0 <= j < |args|
      ensures !Stops(args, j, AsWrittenGuard(1))
    {
      if j == 0 {
        assert args[0][0] == 'c';
      } else if j == 1 {
        assert args[1][0] == 'u';
      }
    }
  }

  /**
    The built-in handler as written: it passes an empty new version when none
    is given, so `update version FILE` always fails validation, and, through
    `HandleCommandErrorAsWritten`, is reported without the usage text.
   */
  method UpdateVersionHandlerAsWritten(toolName: string, args: seq<string>, glob: Validator.Glob,
                                       read: Result<string, Error>)
    returns (x: Exit, effect: Option<Clivrsn.Effect>)
    ensures x.code == 0 || x.code == 1
    ensures AsksHelp(args, AsWrittenGuard(1)) ==>
      effect.None? && x == Exit(0, HelpReport(UpdateUsage(toolName), UpdateDescription(toolName), false))
    ensures Misused(args, AsWrittenGuard(1), 1) ==>
      effect.None? && x == Exit(1, NotEnoughArgs(UpdateUsage(toolName), UpdateDescription(toolName), false))
    ensures NoStop(args, AsWrittenGuard(1)) && |args| >= 4 ==>
      effect == Some(Clivrsn.Updated(args[3], if |args| > 4 then args[4] else "", glob, read))
    ensures effect.Some? ==>
      x == HandleCommandErrorAsWritten(ErrorOf(effect.value), UpdateUsage(toolName), UpdateDescription(toolName), false)
    ensures NoStop(args, AsWrittenGuard(1)) && |args| == 4 ==>
      x.code == 1 && x.report.ExecutionError? && effect.Some? && effect.value.Fail?
  {
    var usage, description := UpdateUsage(toolName), UpdateDescription(toolName);
    var gate := ShouldHaveArgs(1, AsWrittenGuard(1), args, false);
    var stop := GateExit(gate, usage, description, false);
    if stop.Some? {
      return stop.value, None;
    }
    var newVersion := "";
    if |args| > 4 {
      newVersion := args[4];
    }
    var done := Clivrsn.UpdateVersion(args[3], newVersion, glob, read);
    x := HandleCommandErrorAsWritten(ErrorOf(done), usage, description, false);
    effect := Some(done);
  }

  /**
    The built-in handler as intended: required arguments are checked for a
    dash (`IntendedGuard`), every invalid input is reported with the usage
    (`HandleCommandError`), and without a new version it writes the next Z
    release of the file's current version.
   */
  method UpdateVersionHandler(toolName: string, args: seq<string>, glob: Validator.Glob,
                              read: Result<string, Error>)
    returns (x: Exit, effect: Option<Clivrsn.Effect>)
    ensures x.code == 0 || x.code == 1 || x.code == 2
    ensures AsksHelp(args, IntendedGuard(1)) ==>
      effect.None? && x == Exit(0, HelpReport(UpdateUsage(toolName), UpdateDescription(toolName), false))
    ensures Misused(args, IntendedGuard(1), 1) ==>
      effect.None? && x == Exit(1, NotEnoughArgs(UpdateUsage(toolName), UpdateDescription(toolName), false))
    ensures NoStop(args, IntendedGuard(1)) && |args| == 4 ==>
      match Clivrsn.ReadNextZ(args[3], glob, read)
      case Value(v) => effect == Some(Clivrsn.Updated(args[3], v, glob, read))
      case Failed(e) => effect.None? && x == HandleCommandError(Some(e), UpdateUsage(toolName), UpdateDescription(toolName), false)
      case Panicked(_) => effect.None? && x.code == 2
    ensures NoStop(args, IntendedGuard(1)) && |args| > 4 ==>
      effect == Some(Clivrsn.Updated(args[3], args[4], glob, read))
    ensures effect.Some? ==>
      x == HandleCommandError(ErrorOf(effect.value), UpdateUsage(toolName), UpdateDescription(toolName), false)
    ensures effect.Some? && effect.value.Fail? && effect.value.error.IsTypedInvalidInput() ==>
      x.report.InvalidInputReport?
  {
    var usage, description := UpdateUsage(toolName), UpdateDescription(toolName);
    var gate := ShouldHaveArgs(1, IntendedGuard(1), args, false);
    var stop := GateExit(gate, usage, description, false);
    if stop.Some? {
      return stop.value, None;
    }
    var newVersion := "";
    if |args| > 4 {
      newVersion := args[4];
    } else {
      match Clivrsn.ReadNextZ(args[3], glob, read)
      case Value(v) =>
        newVersion := v;
      case Failed(e) =>
        return HandleCommandError(Some(e), usage, description, false), None;
      case Panicked(reason) =>
        return Exit(2, ExecutionError("panic: " + reason)), None;
    }
    var done := Clivrsn.UpdateVersion(args[3], newVersion, glob, read);
    x := HandleCommandError(ErrorOf(done), usage, description, false);
    effect := Some(done);
  }
}
