/**
  The typed errors of the `errtype` package. Each kind carries a message and an
  optional cause ("origin"); the cause is represented by the text it renders to,
  which is all that the formatting uses of it.
 */
module ErrType {
  import opened Wrappers
  import opened Strings

  datatype TypedError =
    | InvalidInput(message: string, origin: Option<string>)
    | ShellError(message: string, origin: Option<string>)
    | RemoteShellError(message: string, origin: Option<string>)
  {
    /** The first line of the rendering: what kind of failure this is. */
    function Category(): string {
      if InvalidInput? then "invalid input" else "shell execution failed"
    }

    /** Go's `Error()` for the three pointer types: all three use one layout. */
    function Error(): (r: string)
      ensures |r| >= |Category()| + |message| + 2
      ensures r[..|Category()| + 1] == Category() + "\n"
      ensures r[|Category()| + 1..|Category()| + 1 + |message|] == message
      ensures r[|r| - 1] == '\n'
      ensures origin.None? <==> |r| == |Category()| + |message| + 2
      ensures origin.Some? ==> r[|Category()| + 1 + |message|..] == "\n\ntrace:\n" + origin.value + "\n"
    {
      Layout(Category(), message, origin)
    }
  }

  /** `"<category>\n<message>\n"`, followed by `"\ntrace:\n<origin>\n"` when there is a cause. */
  function Layout(category: string, message: string, origin: Option<string>): (r: string)
    ensures |r| >= |category| + |message| + 2
    ensures r[..|category| + 1] == category + "\n"
    ensures r[|category| + 1..|category| + 1 + |message|] == message
    ensures r[|r| - 1] == '\n'
    ensures origin.None? <==> |r| == |category| + |message| + 2
    ensures origin.Some? ==> r[|category| + 1 + |message|..] == "\n\ntrace:\n" + origin.value + "\n"
  {
    var head := category + "\n";
    var tail := if origin.Some? then "\n\ntrace:\n" + origin.value + "\n" else "\n";
    var r := head + (message + tail);
    assert r[..|head|] == head;
    assert r[|head|..|head| + |message|] == message;
    assert r[|head| + |message|..] == tail;
    assert head + message + tail == r;
    r
  }

  /** The category line holds no newline, so the message starts right after the first newline. */
  lemma MessageFollowsFirstNewline(e: TypedError)
    ensures var r := e.Error(); var k := |e.Category()|;
      r[k] == '\n' && (forall i :: 0 <= i < k ==> r[i] != '\n') && r[k + 1..k + 1 + |e.message|] == e.message
  {
    var r := e.Error();
    var c := e.Category();
    assert forall i :: 0 <= i < |c| ==> c[i] != '\n';
    forall i | 0 <= i <= |c|
      ensures r[i] == (c + "\n")[i]
    {
      assert r[..|c| + 1][i] == r[i];
    }
  }

  /** Without a cause the message can be read back from the rendering. */
  lemma MessageRecoverable(e: TypedError)
    requires e.origin.None?
    ensures e.Error()[|e.Category()| + 1..|e.Error()| - 1] == e.message
  {
  }

  /** A shell error and a remote shell error with the same fields cannot be told apart once rendered. */
  lemma ShellAndRemoteRenderAlike(message: string, origin: Option<string>)
    ensures ShellError(message, origin).Error() == RemoteShellError(message, origin).Error()
    ensures ShellError(message, origin).Error() != InvalidInput(message, origin).Error()
  {
    var s := ShellError(message, origin).Error();
    var v := InvalidInput(message, origin).Error();
    assert s[0] == 's' && v[0] == 'i';
  }
}
