/**
  The rule-based field validator of the `validator` package. A descriptor is a
  list of records, each naming a field, its value and the rules to check in
  order; the first rule that fails decides the error. The JSON descriptor is
  taken as already decoded, and `filepath.Glob` is a parameter (an oracle from
  pattern to matches).
 */
module Validator {
  import opened Wrappers
  import opened Strconv
  import ErrType
  import opened Errors

  datatype Record = Record(name: string, value: string, rules: seq<string>)

  /** What `filepath.Glob` reports for a pattern: a malformed-pattern error or the matching paths. */
  datatype GlobResult = GlobError(text: string) | GlobMatches(paths: seq<string>)

  type Glob = string -> GlobResult

  /** The two bracket classes used by the rule patterns: `[\d]` and `[\d\.]`. */
  datatype CharClass = DigitClass | DigitOrDotClass {
    predicate Contains(c: char) {
      match this
      case DigitClass => IsDigit(c)
      case DigitOrDotClass => IsDigit(c) || c == '.'
    }
  }

  /** Whether the whole of `s` matches `^[class]+$` (Go's `$` is the end of the text). */
  function MatchesClassPlus(s: string, cls: CharClass): (r: bool)
    ensures r <==> |s| >= 1 && forall i :: 0 <= i < |s| ==> cls.Contains(s[i])
  {
    if s == [] then false
    else cls.Contains(s[0]) && (|s| == 1 || MatchesClassPlus(s[1..], cls))
  }

  /** Non-empty and ASCII digits only. */
  predicate IsNumber(v: string) {
    |v| >= 1 && forall i :: 0 <= i < |v| ==> IsDigit(v[i])
  }

  /** Non-empty and ASCII digits or dots only: not a real IP address syntax. */
  predicate IsIP(v: string) {
    |v| >= 1 && forall i :: 0 <= i < |v| ==> IsDigit(v[i]) || v[i] == '.'
  }

  /** The glob lookup succeeded and found at least one path. */
  predicate Finds(g: GlobResult) {
    g.GlobMatches? && |g.paths| >= 1
  }

  predicate IsKnownRule(rule: string) {
    rule == "NotEmpty" || rule == "IsNumber" || rule == "IsIP" || rule == "IsFile"
  }

  /** When a rule is satisfied by a value. */
  predicate RulePasses(rule: string, value: string, glob: Glob) {
    || (rule == "NotEmpty" && value != "")
    || (rule == "IsNumber" && IsNumber(value))
    || (rule == "IsIP" && IsIP(value))
    || (rule == "IsFile" && Finds(glob(value)))
  }

  /** Every rule of the record is satisfied by its value. */
  predicate RecordPasses(rec: Record, glob: Glob) {
    forall j :: 0 <= j < |rec.rules| ==> RulePasses(rec.rules[j], rec.value, glob)
  }

  function InvalidInput(message: string): Error {
    Typed(ErrType.InvalidInput(message, None))
  }

  /** One turn of the rule loop: `None` when the rule passes, the error it returns otherwise. */
  function CheckRule(rule: string, rec: Record, glob: Glob): (r: Option<Error>)
    ensures r.None? <==> RulePasses(rule, rec.value, glob)
    ensures r.Some? ==> (r.value.Plain? <==> !IsKnownRule(rule))
    ensures r.Some? && IsKnownRule(rule) ==> r.value.IsTypedInvalidInput() && r.value.typed.origin.None?
    ensures !IsKnownRule(rule) ==> r == Some(Plain("unknown matcher: " + rule))
  {
    if rule == "NotEmpty" then
      if |rec.value| > 0 then None
      else Some(InvalidInput("'" + rec.name + "' is empty"))
    else if rule == "IsNumber" then
      if MatchesClassPlus(rec.value, DigitClass) then None
      else Some(InvalidInput("'" + rec.name + "' is not a number, given " + rec.value))
    else if rule == "IsIP" then
      if MatchesClassPlus(rec.value, DigitOrDotClass) then None
      else Some(InvalidInput("'" + rec.name + "' is not an IP address, given " + rec.value))
    else if rule == "IsFile" then
      match glob(rec.value)
      case GlobError(text) =>
        Some(InvalidInput("failed attempting to check if '" + rec.name
                          + "' is a file or directory, failure:\n" + text))
      case GlobMatches(paths) =>
        if |paths| < 1 then Some(InvalidInput("'" + rec.name + "' is not a file or directory, given " + rec.value))
        else None
    else
      Some(Plain("unknown matcher: " + rule))
  }

  /** The inner loop: the rules of one record, in listed order, stopping at the first failure. */
  function ValidateRules(rec: Record, rules: seq<string>, glob: Glob): (r: Option<Error>)
    ensures r.None? <==> forall j :: 0 <= j < |rules| ==> RulePasses(rules[j], rec.value, glob)
  {
    if rules == [] then None
    else
      match CheckRule(rules[0], rec, glob)
      case Some(e) => Some(e)
      case None => ValidateRules(rec, rules[1..], glob)
  }

  /** `ValidateParams` after decoding: records in order, each record's rules in order. */
  function ValidateParams(records: seq<Record>, glob: Glob): (r: Option<Error>)
    ensures r.None? <==> forall i :: 0 <= i < |records| ==> RecordPasses(records[i], glob)
  {
    if records == [] then None
    else
      match ValidateRules(records[0], records[0].rules, glob)
      case Some(e) => Some(e)
      case None => ValidateParams(records[1..], glob)
  }

  /** The error of a record is the one of its first failing rule. */
  lemma {:induction false} RulesFirstFailure(rec: Record, rules: seq<string>, glob: Glob)
    requires ValidateRules(rec, rules, glob).Some?
    ensures exists j :: (0 <= j < |rules| && ValidateRules(rec, rules, glob) == CheckRule(rules[j], rec, glob)
      && forall k :: 0 <= k < j ==> RulePasses(rules[k], rec.value, glob))
    decreases |rules|
  {
    if CheckRule(rules[0], rec, glob).Some? {
      assert ValidateRules(rec, rules, glob) == CheckRule(rules[0], rec, glob);
    } else {
      var rest := rules[1..];
      RulesFirstFailure(rec, rest, glob);
      var j :| 0 <= j < |rest| && ValidateRules(rec, rest, glob) == CheckRule(rest[j], rec, glob)
        && forall k :: 0 <= k < j ==> RulePasses(rest[k], rec.value, glob);
      assert rest[j] == rules[j + 1];
      forall k | 0 <= k < j + 1
        ensures RulePasses(rules[k], rec.value, glob)
      {
        if k > 0 {
          assert rules[k] == rest[k - 1];
        }
      }
    }
  }

  /** The error of a descriptor list is the one of its first failing record. */
  lemma {:induction false} ParamsFirstFailure(records: seq<Record>, glob: Glob)
    requires ValidateParams(records, glob).Some?
    ensures exists i :: (0 <= i < |records| && ValidateParams(records, glob) == ValidateRules(records[i], records[i].rules, glob)
      && forall k :: 0 <= k < i ==> RecordPasses(records[k], glob))
    decreases |records|
  {
    if ValidateRules(records[0], records[0].rules, glob).Some? {
      assert ValidateParams(records, glob) == ValidateRules(records[0], records[0].rules, glob);
    } else {
      var rest := records[1..];
      ParamsFirstFailure(rest, glob);
      var i :| 0 <= i < |rest| && ValidateParams(rest, glob) == ValidateRules(rest[i], rest[i].rules, glob)
        && forall k :: 0 <= k < i ==> RecordPasses(rest[k], glob);
      assert rest[i] == records[i + 1];
      forall k | 0 <= k < i + 1
        ensures RecordPasses(records[k], glob)
      {
        if k > 0 {
          assert records[k] == rest[k - 1];
        }
      }
    }
  }

  /**
    The error returned is the one of the first failing (record, rule) pair in
    reading order: every pair before it passes, and nothing after it matters.
   */
  lemma FirstFailureWins(records: seq<Record>, glob: Glob)
    requires ValidateParams(records, glob).Some?
    ensures exists i, j :: (0 <= i < |records| && 0 <= j < |records[i].rules|
      && ValidateParams(records, glob) == CheckRule(records[i].rules[j], records[i], glob)
      && !RulePasses(records[i].rules[j], records[i].value, glob)
      && (forall k :: 0 <= k < i ==> RecordPasses(records[k], glob))
      && (forall k :: 0 <= k < j ==> RulePasses(records[i].rules[k], records[i].value, glob)))
  {
    ParamsFirstFailure(records, glob);
    var r := ValidateParams(records, glob);
    var i :| 0 <= i < |records| && r == ValidateRules(records[i], records[i].rules, glob)
      && forall k :: 0 <= k < i ==> RecordPasses(records[k], glob);
    RulesFirstFailure(records[i], records[i].rules, glob);
    var j :| 0 <= j < |records[i].rules| && r == CheckRule(records[i].rules[j], records[i], glob)
      && forall k :: 0 <= k < j ==> RulePasses(records[i].rules[k], records[i].value, glob);
    assert CheckRule(records[i].rules[j], records[i], glob).Some?;
    assert !RulePasses(records[i].rules[j], records[i].value, glob);
  }

  /** Every rule of every record is one the validator knows. */
  predicate AllRulesKnown(records: seq<Record>) {
    forall i, j :: 0 <= i < |records| && 0 <= j < |records[i].rules| ==> IsKnownRule(records[i].rules[j])
  }

  /** With known rules only, a failure is always a typed invalid-input error without a cause. */
  lemma KnownRulesFailAsInvalidInput(records: seq<Record>, glob: Glob)
    requires AllRulesKnown(records)
    requires ValidateParams(records, glob).Some?
    ensures ValidateParams(records, glob).value.IsTypedInvalidInput()
    ensures ValidateParams(records, glob).value.typed.origin.None?
  {
    FirstFailureWins(records, glob);
  }

  /** Validating two descriptor lists back to back is validating their concatenation. */
  lemma {:induction false} ValidateParamsAppend(a: seq<Record>, b: seq<Record>, glob: Glob)
    ensures ValidateParams(a + b, glob)
      == if ValidateParams(a, glob).Some? then ValidateParams(a, glob) else ValidateParams(b, glob)
    decreases |a|
  {
    if a == [] {
      assert a + b == b;
    } else {
      assert (a + b)[0] == a[0];
      assert (a + b)[1..] == a[1..] + b;
      ValidateParamsAppend(a[1..], b, glob);
    }
  }

  /** Every value that passes `IsNumber` passes `IsIP`; the converse fails for dotted values. */
  lemma NumberIsIP(v: string)
    ensures IsNumber(v) ==> IsIP(v)
    ensures IsIP("...") && IsIP("1.2.3.4.5") && !IsNumber("1.2")
    ensures !IsNumber("12\n") && !IsNumber("12a") && IsNumber("123") && !IsNumber("")
  {
    assert "1.2"[1] == '.';
    assert "12\n"[2] == '\n';
    assert "12a"[2] == 'a';
    assert "123"[0] == '1' && "123"[1] == '2' && "123"[2] == '3';
  }

  /** An empty value listed with `NotEmpty` first reports only the `NotEmpty` failure. */
  lemma EmptyValueReportsFirstRule(name: string, glob: Glob)
    ensures ValidateParams([Record(name, "", ["NotEmpty", "IsNumber"])], glob)
      == Some(InvalidInput("'" + name + "' is empty"))
    ensures ValidateParams([Record(name, "", ["IsNumber", "NotEmpty"])], glob)
      == Some(InvalidInput("'" + name + "' is not a number, given "))
  {
    var rec := Record(name, "", ["IsNumber", "NotEmpty"]);
    assert ("'" + name + "' is not a number, given ") + "" == "'" + name + "' is not a number, given ";
    assert ValidateRules(rec, rec.rules, glob) == CheckRule("IsNumber", rec, glob);
  }

  /** An unknown rule is an error of its own kind, but only once it is reached. */
  lemma UnknownRuleOnlyWhenReached(name: string, glob: Glob)
    ensures ValidateParams([Record(name, "7", ["NotEmpty", "IsPort"])], glob) == Some(Plain("unknown matcher: IsPort"))
    ensures ValidateParams([Record(name, "", ["NotEmpty", "IsPort"])], glob)
      == Some(InvalidInput("'" + name + "' is empty"))
  {
    var rec := Record(name, "7", ["NotEmpty", "IsPort"]);
    assert CheckRule("NotEmpty", rec, glob) == None;
    assert rec.rules[1..] == ["IsPort"];
    assert ValidateRules(rec, ["IsPort"], glob) == CheckRule("IsPort", rec, glob);
    assert !IsKnownRule("IsPort") by {
      assert "IsPort"[2] == 'P';
    }
    assert ValidateRules(rec, rec.rules, glob) == ValidateRules(rec, rec.rules[1..], glob);
    var unknown := CheckRule("IsPort", rec, glob);
    assert unknown.Some? && unknown.value.Plain?;
    assert unknown.value.text == "unknown matcher: IsPort";
    assert ValidateRules(rec, rec.rules, glob) == Some(Plain("unknown matcher: IsPort"));
    assert [rec][0] == rec;
  }
}
