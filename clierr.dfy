/**
  The `clierr` package's invalid-input error: the same layout as the `errtype`
  one except that the trace header is spelled `Trace:` with a capital letter.
 */
module CliErr {
  import opened Wrappers
  import opened Strings
  import ErrType

  datatype InvalidInput = InvalidInput(message: string, origin: Option<string>)
  {
    function Error(): (r: string)
      ensures |r| >= |"invalid input\n"| + |message| + 1
      ensures r[..|"invalid input\n"|] == "invalid input\n"
      ensures r[|"invalid input\n"|..|"invalid input\n"| + |message|] == message
      ensures r[|r| - 1] == '\n'
      ensures origin.None? <==> |r| == |"invalid input\n"| + |message| + 1
      ensures origin.Some? ==> r[|"invalid input\n"| + |message|..] == "\n\nTrace:\n" + origin.value + "\n"
    {
      var head := "invalid input\n";
      var tail := if origin.Some? then "\n\nTrace:\n" + origin.value + "\n" else "\n";
      var r := head + (message + tail);
      assert r[..|head|] == head;
      assert r[|head|..|head| + |message|] == message;
      assert r[|head| + |message|..] == tail;
      r
    }
  }

  /** Without a cause both invalid-input errors render identically. */
  lemma SameAsErrTypeWithoutCause(message: string)
    ensures InvalidInput(message, None).Error() == ErrType.InvalidInput(message, None).Error()
  {
  }

  /** The two trace headers put after the same text differ in one character only. */
  lemma TraceHeadersApart(h: string, origin: string)
    ensures var a := h + ("\n\nTrace:\n" + origin + "\n");
      var b := h + ("\n\ntrace:\n" + origin + "\n");
      |a| == |b| && a[|h| + 2] == 'T' && b[|h| + 2] == 't'
      && forall i :: 0 <= i < |a| && i != |h| + 2 ==> a[i] == b[i]
  {
    var tA := "\n\nTrace:\n" + origin + "\n";
    var tB := "\n\ntrace:\n" + origin + "\n";
    var a, b := h + tA, h + tB;
    forall i | 0 <= i < |a| && i != |h| + 2
      ensures a[i] == b[i]
    {
      if i >= |h| {
        var j := i - |h|;
        if j < 9 {
          assert tA[j] == "\n\nTrace:\n"[j] && tB[j] == "\n\ntrace:\n"[j];
        } else {
          assert tA[j] == tB[j];
        }
      }
    }
  }

  /**
    With a cause the two invalid-input renderings have the same length and
    differ in exactly one position: the initial of the trace header.
   */
  lemma DiffersOnlyInTraceCase(message: string, origin: string)
    ensures var a := InvalidInput(message, Some(origin)).Error();
      var b := ErrType.InvalidInput(message, Some(origin)).Error();
      var p := |"invalid input\n" + message + "\n\n"|;
      |a| == |b| && p < |a| && a[p] == 'T' && b[p] == 't'
      && forall i :: 0 <= i < |a| && i != p ==> a[i] == b[i]
  {
    CliRendering(message, origin);
    TypedRendering(message, origin);
    TraceHeadersApart("invalid input\n" + message, origin);
  }

  lemma CliRendering(message: string, origin: string)
    ensures InvalidInput(message, Some(origin)).Error()
      == "invalid input\n" + message + ("\n\nTrace:\n" + origin + "\n")
  {
    var a := InvalidInput(message, Some(origin)).Error();
    assert a == "invalid input\n" + (message + ("\n\nTrace:\n" + origin + "\n"));
  }

  lemma TypedRendering(message: string, origin: string)
    ensures ErrType.InvalidInput(message, Some(origin)).Error()
      == "invalid input\n" + message + ("\n\ntrace:\n" + origin + "\n")
  {
    var h := "invalid input\n" + message;
    var b := ErrType.InvalidInput(message, Some(origin)).Error();
    assert b[..|h|] == h;
    assert b[|h|..] == "\n\ntrace:\n" + origin + "\n";
    assert b == b[..|h|] + b[|h|..];
  }
}
