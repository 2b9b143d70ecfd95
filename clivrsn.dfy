/**
  The version-file rewriter of the `clivrsn` package. The file is taken as its
  contents: the read is a `Result` handed in by the caller, and the write is
  returned as an `Overwrite` effect. A version file declares its version on a
  line starting with `const VERSION string`.
 */
module Clivrsn {
  import opened Wrappers
  import opened Strings
  import opened Strconv
  import opened Errors
  import Validator

  /** What a call ends in: a value, a returned error, or a Go runtime panic. */
  datatype Outcome<T> = Value(value: T) | Failed(error: Error) | Panicked(reason: string)

  /** What `UpdateVersion` does: return an error, or overwrite the file with new contents. */
  datatype Effect = Fail(error: Error) | Overwrite(path: string, data: string)

  const Marker := "const VERSION string"

  predicate IsVersionLine(line: string) {
    HasPrefix(line, Marker)
  }

  /** The declaration `UpdateVersion` writes for a new version. */
  function VersionLine(v: string): string {
    "const VERSION string = \"" + v + "\""
  }

  /** Every version line among `lines` already declares version `v`. */
  predicate Settled(lines: seq<string>, v: string) {
    forall k :: 0 <= k < |lines| ==> IsVersionLine(lines[k]) ==> lines[k] == VersionLine(v)
  }

  /** Line `i` is the first line of `lines` that declares the version. */
  predicate IsFirstVersionLine(lines: seq<string>, i: int) {
    0 <= i < |lines| && IsVersionLine(lines[i]) && forall j :: 0 <= j < i ==> !IsVersionLine(lines[j])
  }

  /** The search loop of `readVersion`: the index of the first version line, if any. */
  function FirstVersionLine(lines: seq<string>): (r: Option<nat>)
    ensures r.Some? ==> IsFirstVersionLine(lines, r.value)
    ensures r.None? <==> forall j :: 0 <= j < |lines| ==> !IsVersionLine(lines[j])
  {
    if lines == [] then None
    else if IsVersionLine(lines[0]) then Some(0)
    else
      match FirstVersionLine(lines[1..])
      case None => None
      case Some(k) => Some(k + 1)
  }

  /** The last space-separated token of a line. */
  function LastToken(line: string): (t: string)
    ensures ' ' !in t
  {
    var tokens := Split(line, ' ');
    tokens[|tokens| - 1]
  }

  /**
    `readVersion` on the file's contents: the last token of the first version
    line with its first and last characters (the quotes) removed. Slicing a
    token shorter than two characters panics in Go.
   */
  function ReadVersion(content: string): (r: Outcome<string>)
    ensures r.Failed? <==> forall j :: 0 <= j < |Split(content, '\n')| ==> !IsVersionLine(Split(content, '\n')[j])
    ensures r.Failed? ==> r.error == Plain("could not find version")
    ensures r.Value? ==> ' ' !in r.value
  {
    var lines := Split(content, '\n');
    match FirstVersionLine(lines)
    case None => Failed(Plain("could not find version"))
    case Some(i) =>
      assert IsVersionLine(Split(content, '\n')[i]);
      var ver := LastToken(lines[i]);
      if |ver| < 2 then Panicked("slice bounds out of range")
      else Value(ver[1..|ver| - 1])
  }

  /**
    When a version line exists, `readVersion` reads the first one: it yields
    its last token without the enclosing characters, and panics exactly when
    that token is shorter than two characters.
   */
  lemma ReadVersionReadsFirst(content: string, i: int)
    requires IsFirstVersionLine(Split(content, '\n'), i)
    ensures var t := LastToken(Split(content, '\n')[i]);
      && (ReadVersion(content).Value? <==> |t| >= 2)
      && (ReadVersion(content).Panicked? <==> |t| < 2)
      && (ReadVersion(content).Value? ==> ReadVersion(content).value == t[1..|t| - 1])
  {
    assert FirstVersionLine(Split(content, '\n')) == Some(i);
  }

  /** What line `i` adds to the rewritten file (one turn of the rebuild loop). */
  function Contribution(lines: seq<string>, i: nat, v: string): seq<string>
    requires i < |lines|
  {
    if IsVersionLine(lines[i]) then [VersionLine(v)]
    else if |lines[i]| > 0 || i < |lines| - 2 then [lines[i]]
    else []
  }

  /** The lines the rebuild keeps from the first `n` input lines. */
  function Kept(lines: seq<string>, v: string, n: nat): (r: seq<string>)
    requires n <= |lines|
    ensures |r| <= n
  {
    if n == 0 then [] else Kept(lines, v, n - 1) + Contribution(lines, n - 1, v)
  }

  /**
    Every kept line is the new declaration or an input line copied verbatim,
    and the only version lines kept are new declarations.
   */
  lemma {:induction false} KeptLines(lines: seq<string>, v: string, n: nat)
    requires n <= |lines|
    ensures forall k :: 0 <= k < |Kept(lines, v, n)| ==>
      Kept(lines, v, n)[k] == VersionLine(v) || (!IsVersionLine(Kept(lines, v, n)[k]) && Kept(lines, v, n)[k] in lines)
  {
    if n > 0 {
      KeptLines(lines, v, n - 1);
    }
  }

  /** A copied line that is not a stale declaration contributes itself. */
  lemma ContributionKeeps(lines: seq<string>, i: nat, v: string)
    requires i < |lines| && (|lines[i]| > 0 || i < |lines| - 2)
    requires IsVersionLine(lines[i]) ==> lines[i] == VersionLine(v)
    ensures Contribution(lines, i, v) == [lines[i]]
  {
  }

  /** An empty line among the last two is dropped. */
  lemma ContributionDrops(lines: seq<string>, i: nat, v: string)
    requires i < |lines| && lines[i] == "" && i >= |lines| - 2
    ensures Contribution(lines, i, v) == []
  {
    assert !IsVersionLine(lines[i]);
  }

  /** One turn of the rebuild loop, as text: what line `i` appends to the output. */
  lemma KeptStep(lines: seq<string>, v: string, i: nat)
    requires i < |lines|
    ensures Terminated(Kept(lines, v, i + 1)) == Terminated(Kept(lines, v, i))
      + (if IsVersionLine(lines[i]) then VersionLine(v) + "\n"
         else if |lines[i]| > 0 || i < |lines| - 2 then lines[i] + "\n"
         else "")
  {
    var before := Kept(lines, v, i);
    assert Kept(lines, v, i + 1) == before + Contribution(lines, i, v);
    if IsVersionLine(lines[i]) {
      TerminatedAppend(before, VersionLine(v));
    } else if |lines[i]| > 0 || i < |lines| - 2 {
      TerminatedAppend(before, lines[i]);
    } else {
      assert before + [] == before;
    }
  }

  /** The text `UpdateVersion` writes for file contents `content` and version `v`. */
  function Rebuild(content: string, v: string): string {
    var lines := Split(content, '\n');
    Terminated(Kept(lines, v, |lines|))
  }

  lemma RebuildOfLines(content: string, v: string, lines: seq<string>)
    requires Split(content, '\n') == lines
    ensures Rebuild(content, v) == Terminated(Kept(lines, v, |lines|))
  {
  }

  /** The rebuild loop of `UpdateVersion`: accumulate each kept line and a newline. */
  method RebuildLines(lines: seq<string>, newVersion: string) returns (result: string)
    ensures result == Terminated(Kept(lines, newVersion, |lines|))
  {
    result := "";
    var index := 0;
    while index < |lines|
      invariant 0 <= index <= |lines|
      invariant result == Terminated(Kept(lines, newVersion, index))
    {
      var line := lines[index];
      KeptStep(lines, newVersion, index);
      if HasPrefix(line, Marker) {
        result := result + VersionLine(newVersion) + "\n";
      } else if |line| > 0 || index < |lines| - 2 {
        result := result + line + "\n";
      }
      index := index + 1;
    }
  }

  /** The descriptor `UpdateVersion` validates before touching the file. */
  function UpdateRecords(versionFile: string, newVersion: string): seq<Validator.Record> {
    [ Validator.Record("version_file", versionFile, ["NotEmpty", "IsFile"]),
      Validator.Record("new_version", newVersion, ["NotEmpty"]) ]
  }

  /** The effect of `UpdateVersion`, as a value. */
  function Updated(versionFile: string, newVersion: string, glob: Validator.Glob, read: Result<string, Error>): Effect {
    var err := Validator.ValidateParams(UpdateRecords(versionFile, newVersion), glob);
    if err.Some? then Fail(err.value)
    else if read.Failure? then Fail(read.error)
    else Overwrite(versionFile, Rebuild(read.value, newVersion))
  }

  /**
    `UpdateVersion`: validate both arguments, read the file (`read` is what
    the read returned), rebuild it with the new version and overwrite it.
   */
  method UpdateVersion(versionFile: string, newVersion: string, glob: Validator.Glob, read: Result<string, Error>)
    returns (effect: Effect)
    ensures Validator.ValidateParams(UpdateRecords(versionFile, newVersion), glob).Some? ==>
      effect == Fail(Validator.ValidateParams(UpdateRecords(versionFile, newVersion), glob).value)
    ensures versionFile == "" || newVersion == "" ==> effect.Fail? && effect.error.IsTypedInvalidInput()
    ensures Validator.ValidateParams(UpdateRecords(versionFile, newVersion), glob).None? ==>
      effect == (if read.Failure? then Fail(read.error) else Overwrite(versionFile, Rebuild(read.value, newVersion)))
    ensures effect == Updated(versionFile, newVersion, glob, read)
  {
    if versionFile == "" || newVersion == "" {
      EmptyArgumentRejected(versionFile, newVersion, glob);
    }
    var err := Validator.ValidateParams(UpdateRecords(versionFile, newVersion), glob);
    if err.Some? {
      return Fail(err.value);
    }
    if read.Failure? {
      return Fail(read.error);
    }
    var data := RebuildLines(Split(read.value, '\n'), newVersion);
    return Overwrite(versionFile, data);
  }

  /** An empty file name or an empty new version fails validation with an invalid-input error. */
  lemma EmptyArgumentRejected(versionFile: string, newVersion: string, glob: Validator.Glob)
    requires versionFile == "" || newVersion == ""
    ensures var err := Validator.ValidateParams(UpdateRecords(versionFile, newVersion), glob);
      err.Some? && err.value.IsTypedInvalidInput()
  {
    var records := UpdateRecords(versionFile, newVersion);
    assert Validator.ValidateParams(records, glob).Some? by {
      var idx := if versionFile == "" then 0 else 1;
      assert records[idx].rules[0] == "NotEmpty" && records[idx].value == "";
      assert !Validator.RecordPasses(records[idx], glob);
    }
    UpdateRecordsKnown(versionFile, newVersion);
    Validator.KnownRulesFailAsInvalidInput(records, glob);
  }

  lemma UpdateRecordsKnown(versionFile: string, newVersion: string)
    ensures Validator.AllRulesKnown(UpdateRecords(versionFile, newVersion))
  {
    var records := UpdateRecords(versionFile, newVersion);
    forall i, j | 0 <= i < |records| && 0 <= j < |records[i].rules|
      ensures Validator.IsKnownRule(records[i].rules[j])
    {
      if i == 0 {
        assert records[0].rules == ["NotEmpty", "IsFile"];
      } else {
        assert records[1].rules == ["NotEmpty"];
      }
    }
  }

  /** Go's `z_release++` on a 64-bit `int`: the largest value wraps to the smallest. */
  function Increment(z: int): (r: int)
    requires InIntRange(z)
    ensures InIntRange(r)
    ensures r == z + 1 || (z == MaxInt && r == MinInt)
  {
    if z == MaxInt then MinInt else z + 1
  }

  /**
    The arithmetic of `ReadNextZ` on a version string: split on `.`, replace
    piece 2 by its successor, join again.
   */
  function BumpZ(version: string): (r: Outcome<string>)
    ensures r.Panicked? <==> |Split(version, '.')| < 3
    ensures r.Failed? <==> |Split(version, '.')| >= 3 && Atoi(Split(version, '.')[2]).Failure?
    ensures r.Value? ==> var pieces := Split(version, '.');
      |pieces| >= 3 && Atoi(pieces[2]).Success?
      && Split(r.value, '.') == pieces[2 := Itoa(Increment(Atoi(pieces[2]).value))]
  {
    var pieces := Split(version, '.');
    if |pieces| < 3 then Panicked("index out of range [2]")
    else
      match Atoi(pieces[2])
      case Failure(reason) =>
        Failed(Plain("could not read next Z version, atoi conversion failed: " + AtoiErrorText(pieces[2], reason)))
      case Success(z) =>
        var bumped := pieces[2 := Itoa(Increment(z))];
        ItoaAlphabet(Increment(z));
        SplitJoin(bumped, '.');
        Value(Join(bumped, '.'))
  }

  /** `ReadNextZ`: validate the file name, read the file, find its version and bump it. */
  function ReadNextZ(versionFile: string, glob: Validator.Glob, read: Result<string, Error>): (r: Outcome<string>)
    ensures var err := Validator.ValidateParams([Validator.Record("version_file", versionFile, ["NotEmpty", "IsFile"])], glob);
      err.Some? ==> r == Failed(err.value)
    ensures r.Value? ==> (read.Success? && ReadVersion(read.value).Value?
      && BumpZ(ReadVersion(read.value).value) == r)
    ensures Validator.ValidateParams([Validator.Record("version_file", versionFile, ["NotEmpty", "IsFile"])], glob).None?
      ==> r == match read
              case Failure(e) => Failed(e)
              case Success(content) =>
                if ReadVersion(content).Value? then BumpZ(ReadVersion(content).value) else ReadVersion(content)
  {
    var err := Validator.ValidateParams([Validator.Record("version_file", versionFile, ["NotEmpty", "IsFile"])], glob);
    if err.Some? then Failed(err.value)
    else if read.Failure? then Failed(read.error)
    else
      match ReadVersion(read.value)
      case Failed(e) => Failed(e)
      case Panicked(p) => Panicked(p)
      case Value(current) => BumpZ(current)
  }

  lemma VersionLineTokens(q: string)
    ensures "const VERSION string = " + q == Join(["const", "VERSION", "string", "=", q], ' ')
  {
    JoinTokens("=", [q]);
    JoinTokens("string", ["=", q]);
    JoinTokens("VERSION", ["string", "=", q]);
    JoinTokens("const", ["VERSION", "string", "=", q]);
    assert "const" + " " + ("VERSION" + " " + ("string" + " " + ("=" + " " + q)))
        == "const VERSION string = " + q;
  }

  lemma JoinTokens(word: string, rest: seq<string>)
    requires |rest| >= 1
    ensures Join([word] + rest, ' ') == word + " " + Join(rest, ' ')
  {
    assert ([word] + rest)[1..] == rest;
  }

  lemma VersionLineFacts(v: string)
    ensures IsVersionLine(VersionLine(v))
    ensures '\n' !in v ==> '\n' !in VersionLine(v)
    ensures ' ' !in v ==> LastToken(VersionLine(v)) == "\"" + v + "\""
  {
    var q := "\"" + v + "\"";
    var line := VersionLine(v);
    assert line == "const VERSION string = " + q;
    assert line[..|Marker|] == Marker;
    if ' ' !in v {
      VersionLineTokens(q);
      SplitJoin(["const", "VERSION", "string", "=", q], ' ');
    }
  }

  /** A version line among the first `n` input lines makes the new declaration appear in the output. */
  lemma {:induction false} KeptHasVersion(lines: seq<string>, v: string, n: nat, i: nat)
    requires i < n <= |lines| && IsVersionLine(lines[i])
    ensures VersionLine(v) in Kept(lines, v, n)
    decreases n
  {
    if i < n - 1 {
      KeptHasVersion(lines, v, n - 1, i);
    }
  }

  /**
    Rebuilding lines whose version lines already carry `v`, followed by an empty
    final piece, keeps each of the first `n` lines as it is, up to the last line.
   */
  lemma {:induction false} KeptOfRebuilt(ls: seq<string>, v: string, n: nat)
    requires Settled(ls, v)
    requires n + 1 <= |ls|
    ensures Kept(ls + [""], v, n) == ls[..n]
    decreases n
  {
    if n > 0 {
      KeptOfRebuilt(ls, v, n - 1);
      var full := ls + [""];
      assert full[n - 1] == ls[n - 1];
      ContributionKeeps(full, n - 1, v);
      assert Kept(full, v, n) == Kept(full, v, n - 1) + [ls[n - 1]];
      assert ls[..n] == ls[..n - 1] + [ls[n - 1]];
    }
  }

  /** Rebuilt newline-free lines hold no newline, and every version line among them is the new one. */
  lemma KeptClean(lines: seq<string>, v: string)
    requires '\n' !in v
    requires NoNewlines(lines)
    ensures NoNewlines(Kept(lines, v, |lines|)) && Settled(Kept(lines, v, |lines|), v)
  {
    var r := Kept(lines, v, |lines|);
    KeptLines(lines, v, |lines|);
    VersionLineFacts(v);
    forall k | 0 <= k < |r|
      ensures '\n' !in r[k] && (IsVersionLine(r[k]) ==> r[k] == VersionLine(v))
    {
      if r[k] != VersionLine(v) {
        var idx :| 0 <= idx < |lines| && lines[idx] == r[k];
      }
    }
  }

  /** Round trip: after writing version `v`, reading the file gives `v` back. */
  lemma UpdateThenRead(content: string, v: string)
    requires exists i :: 0 <= i < |Split(content, '\n')| && IsVersionLine(Split(content, '\n')[i])
    requires ' ' !in v && '\n' !in v
    ensures ReadVersion(Rebuild(content, v)) == Value(v)
  {
    var lines := Split(content, '\n');
    var i :| 0 <= i < |lines| && IsVersionLine(lines[i]);
    var kept := Kept(lines, v, |lines|);
    VersionLineFacts(v);
    KeptHasVersion(lines, v, |lines|, i);
    KeptClean(lines, v);
    SplitTerminated(kept);
    var out := kept + [""];
    assert Split(Rebuild(content, v), '\n') == out;
    var j :| 0 <= j < |kept| && kept[j] == VersionLine(v);
    assert out[j] == kept[j];
    var first := FirstVersionLine(out);
    assert first.Some?;
    var f := first.value;
    assert f < |kept|;
    assert out[f] == kept[f] == VersionLine(v);
  }

  /**
    Rebuilding lines that an earlier rebuild produced (so their version lines
    carry `v`), followed by the empty piece after the final newline: all lines
    stay, except the last one when it is empty.
   */
  lemma KeptOfRebuiltAll(ls: seq<string>, v: string)
    requires Settled(ls, v)
    ensures ls != [] && ls[|ls| - 1] == "" ==> Kept(ls + [""], v, |ls| + 1) == ls[..|ls| - 1]
    ensures ls == [] || ls[|ls| - 1] != "" ==> Kept(ls + [""], v, |ls| + 1) == ls
  {
    var n := |ls|;
    var full := ls + [""];
    ContributionDrops(full, n, v);
    assert Kept(full, v, n + 1) == Kept(full, v, n) + [];
    if n > 0 {
      KeptOfRebuilt(ls, v, n - 1);
      assert full[n - 1] == ls[n - 1];
      assert ls == ls[..n - 1] + [ls[n - 1]];
      if ls[n - 1] == "" {
        ContributionDrops(full, n - 1, v);
        assert Kept(full, v, n) == Kept(full, v, n - 1) + [];
      } else {
        ContributionKeeps(full, n - 1, v);
        assert Kept(full, v, n) == Kept(full, v, n - 1) + [ls[n - 1]];
      }
    }
  }

  /**
    Rewriting an already rewritten file with the same version never makes it
    longer: it is unchanged, or it loses one trailing empty line.
   */
  lemma RebuildNeverGrows(content: string, v: string)
    requires '\n' !in v
    ensures var once := Rebuild(content, v);
      var twice := Rebuild(once, v);
      (twice == once || once == twice + "\n") && |twice| <= |once|
  {
    var lines := Split(content, '\n');
    var r1 := Kept(lines, v, |lines|);
    KeptClean(lines, v);
    SplitTerminated(r1);
    assert Rebuild(content, v) == Terminated(r1);
    var r2 := Kept(r1 + [""], v, |r1| + 1);
    assert Rebuild(Terminated(r1), v) == Terminated(r2);
    KeptOfRebuiltAll(r1, v);
    if r1 != [] && r1[|r1| - 1] == "" {
      assert r1 == r2 + [""];
      TerminatedAppend(r2, "");
    }
  }

  /**
    A file whose version lines already declare `v` and whose last line is not
    blank is rewritten byte for byte as it was.
   */
  lemma CleanFileUnchanged(ls: seq<string>, v: string)
    requires NoNewlines(ls)
    requires Settled(ls, v)
    requires ls != [] ==> ls[|ls| - 1] != ""
    ensures Rebuild(Terminated(ls), v) == Terminated(ls)
  {
    SplitTerminated(ls);
    KeptOfRebuiltAll(ls, v);
    RebuildOfLines(Terminated(ls), v, ls + [""]);
  }

  /** After writing a version, `ReadNextZ` bumps exactly that version. */
  lemma NextZAfterUpdate(versionFile: string, glob: Validator.Glob, content: string, v: string)
    requires Validator.ValidateParams([Validator.Record("version_file", versionFile, ["NotEmpty", "IsFile"])], glob).None?
    requires exists i :: 0 <= i < |Split(content, '\n')| && IsVersionLine(Split(content, '\n')[i])
    requires ' ' !in v && '\n' !in v
    ensures ReadNextZ(versionFile, glob, Success(Rebuild(content, v))) == BumpZ(v)
  {
    UpdateThenRead(content, v);
  }

  /** The example version constant `v0.0.3` is bumped to `v0.0.4`. */
  lemma BumpExample()
    ensures BumpZ("v0.0.3") == Value("v0.0.4")
  {
    var pieces := ["v0", "0", "3"];
    ExamplePieces();
    AtoiExample();
    assert Increment(3) == 4;
    assert Itoa(4) == "4";
    assert pieces[2 := "4"] == ["v0", "0", "4"];
    assert Join(["v0", "0", "4"], '.') == "v0.0.4";
  }

  lemma ExamplePieces()
    ensures Split("v0.0.3", '.') == ["v0", "0", "3"]
  {
    assert Join(["v0", "0", "3"], '.') == "v0.0.3";
    SplitJoin(["v0", "0", "3"], '.');
  }

  lemma AtoiExample()
    ensures Atoi("3") == Success(3)
  {
    assert !Signed("3") && Body("3") == "3";
    assert DigitsValue("3") == 3;
  }

  /** The line the rewriter writes is read back as the version it holds. */
  lemma ReadExample()
    ensures ReadVersion(VersionLine("v0.0.3")) == Value("v0.0.3")
  {
    VersionLineFacts("v0.0.3");
    SplitLone(VersionLine("v0.0.3"), '\n');
  }
}
