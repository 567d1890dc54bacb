/** The consecutive-failure counter `cmd_errors` of `update_log` in
    `RPi.fanspeed.py`. Each loop iteration runs the reporting command once;
    a nonzero exit code counts one more failure, a zero exit code resets the
    count, and more than ten failures in a row are meant to stop the command.
    As written, line 82 assigns `.cmd` on the list that line 69 rebound
    `args` to, so the eleventh failure raises `AttributeError` instead; that
    exception is not caught and ends the script. Both the code as written
    and the evidently intended behaviour are modelled. Exit codes come in
    as a sequence, one per command run. */
module CommandLog {
  import opened Common

  /** Failures in a row that are still tolerated. */
  const MaxCommandErrors: nat := 10

  /** How many nonzero exit codes end the sequence. */
  function TrailingFailures(codes: seq<int>): (n: nat)
    ensures n <= |codes|
  {
    if |codes| == 0 || codes[|codes| - 1] == 0 then 0
    else TrailingFailures(codes[..|codes| - 1]) + 1
  }

  /** Some prefix of the sequence ends in more than ten failures in a row. */
  predicate FailureRunSeen(codes: seq<int>)
  {
    |codes| > 0 &&
    (FailureRunSeen(codes[..|codes| - 1]) || TrailingFailures(codes) > MaxCommandErrors)
  }

  // ---------------------------------------------------------------------
  // As written

  /** One command run as written: count or reset, and on the eleventh
      failure in a row fail on `args.cmd = None` with `args` a list. */
  function RecordExitAsWritten(errors: nat, returnCode: int): (r: Result<nat>)
    ensures r.Raise? <==> returnCode != 0 && errors >= MaxCommandErrors
    ensures r.Raise? ==> r.error == AttributeError
    ensures returnCode == 0 ==> r == Ok(0)
    ensures r.Ok? && returnCode != 0 ==> r.value == errors + 1 <= MaxCommandErrors
  {
    if returnCode != 0 then
      if errors + 1 > MaxCommandErrors then Raise(AttributeError) else Ok(errors + 1)
    else Ok(0)
  }

  /** A run of command invocations from the initial `cmd_errors = 0`; the
      first exception ends the script. */
  function RunAsWritten(codes: seq<int>): (r: Result<nat>)
    ensures r.Ok? ==> r.value <= MaxCommandErrors && r.value <= |codes|
    ensures r.Raise? ==> |codes| > MaxCommandErrors
  {
    if |codes| == 0 then Ok(0)
    else
      match RunAsWritten(codes[..|codes| - 1])
      case Raise(e) => Raise(e)
      case Ok(errors) => RecordExitAsWritten(errors, codes[|codes| - 1])
  }

  /** As written, the counter holds the current run of failures until the
      first run longer than ten, which raises instead of stopping the command. */
  lemma {:induction false} RunAsWrittenCounts(codes: seq<int>)
    ensures RunAsWritten(codes)
      == if FailureRunSeen(codes) then Raise(AttributeError) else Ok(TrailingFailures(codes))
  {
    if |codes| > 0 {
      RunAsWrittenCounts(codes[..|codes| - 1]);
    }
  }

  /** Ten failures in a row are counted; the eleventh raises. */
  lemma EleventhFailureRaises()
    ensures RunAsWritten(seq(10, _ => 1)) == Ok(10)
    ensures RunAsWritten(seq(11, _ => 1)) == Raise(AttributeError)
  {
    var ten: seq<int> := seq(10, _ => 1);
    var eleven: seq<int> := seq(11, _ => 1);
    assert eleven[..10] == ten;
    assert TrailingFailures(ten) == 10 by {
      TrailingAllFailures(ten);
    }
    assert !FailureRunSeen(ten) by {
      ShortRunsNotSeen(ten);
    }
    RunAsWrittenCounts(ten);
  }

  /** A sequence of nonzero codes is one run of failures. */
  lemma {:induction false} TrailingAllFailures(codes: seq<int>)
    requires forall i :: 0 <= i < |codes| ==> codes[i] != 0
    ensures TrailingFailures(codes) == |codes|
  {
    if |codes| > 0 {
      TrailingAllFailures(codes[..|codes| - 1]);
    }
  }

  /** Sequences of at most ten codes never hold more than ten failures in a row. */
  lemma {:induction false} ShortRunsNotSeen(codes: seq<int>)
    requires |codes| <= MaxCommandErrors
    ensures !FailureRunSeen(codes)
  {
    if |codes| > 0 {
      ShortRunsNotSeen(codes[..|codes| - 1]);
    }
  }

  // ---------------------------------------------------------------------
  // As intended

  /** The counter and whether `args.cmd` is still set. */
  datatype CommandSink = CommandSink(errors: nat, enabled: bool)

  /** One command run as intended: the eleventh failure in a row clears the
      command instead of raising. */
  function RecordExit(s: CommandSink, returnCode: int): (r: CommandSink)
    ensures returnCode == 0 ==> r.errors == 0 && r.enabled == s.enabled
    ensures returnCode != 0 ==> r.errors == s.errors + 1
    ensures r.enabled <==> s.enabled && r.errors <= MaxCommandErrors
  {
    if returnCode != 0 then
      var errors := s.errors + 1;
      CommandSink(errors, s.enabled && errors <= MaxCommandErrors)
    else CommandSink(0, s.enabled)
  }

  /** A run from the initial state, with `codes[i]` the exit code the command
      would return on the `i`-th loop iteration. Once the command is cleared it
      is no longer run, and the codes of later iterations leave the state
      alone. */
  function Run(codes: seq<int>): (r: CommandSink)
    ensures r.enabled ==> r.errors <= MaxCommandErrors
    ensures !r.enabled ==> r.errors == MaxCommandErrors + 1
  {
    if |codes| == 0 then CommandSink(0, true)
    else
      var s := Run(codes[..|codes| - 1]);
      if s.enabled then RecordExit(s, codes[|codes| - 1]) else s
  }

  /** As intended, the command stays enabled exactly until the first run of
      more than ten failures, and until then the counter is the length of
      the current run of failures. */
  lemma {:induction false} RunDisablesAfterElevenFailures(codes: seq<int>)
    ensures Run(codes)
      == if FailureRunSeen(codes) then CommandSink(MaxCommandErrors + 1, false)
         else CommandSink(TrailingFailures(codes), true)
  {
    if |codes| > 0 {
      RunDisablesAfterElevenFailures(codes[..|codes| - 1]);
    }
  }

  // ---------------------------------------------------------------------
  // Line 82 corrected, line 86 as written

  /** `update_log` with the default `--log` of `None` once line 82 really
      clears `args.cmd`: while the command is set it runs as intended; once
      it is cleared, the else branch evaluates `args.log.lower()` on `None`
      and raises `AttributeError`, again uncaught by the main loop. */
  function RecordExitLine86(s: CommandSink, returnCode: int): (r: Result<CommandSink>)
    ensures r.Raise? <==> !s.enabled
    ensures r.Raise? ==> r.error == AttributeError
    ensures r.Ok? ==> r.value.errors == (if returnCode == 0 then 0 else s.errors + 1)
  {
    if s.enabled then Ok(RecordExit(s, returnCode)) else Raise(AttributeError)
  }

  /** A run of loop iterations with only line 82 corrected. */
  function RunLine86(codes: seq<int>): Result<CommandSink>
  {
    if |codes| == 0 then Ok(CommandSink(0, true))
    else
      match RunLine86(codes[..|codes| - 1])
      case Raise(e) => Raise(e)
      case Ok(s) => RecordExitLine86(s, codes[|codes| - 1])
  }

  /** With only line 82 corrected, the loop iteration after the command is
      cleared raises; before that the run agrees with the intended one. */
  lemma {:induction false} RunLine86RaisesAfterDisable(codes: seq<int>)
    ensures RunLine86(codes)
      == if |codes| > 0 && FailureRunSeen(codes[..|codes| - 1]) then Raise(AttributeError)
         else Ok(Run(codes))
  {
    if |codes| > 0 {
      var prefix := codes[..|codes| - 1];
      RunLine86RaisesAfterDisable(prefix);
      RunDisablesAfterElevenFailures(prefix);
      if |prefix| > 0 && FailureRunSeen(prefix[..|prefix| - 1]) {
        assert FailureRunSeen(prefix);
      }
    }
  }

  /** Eleven failures clear the command; the twelfth iteration raises. */
  lemma TwelfthIterationRaises()
    ensures RunLine86(seq(11, _ => 1)) == Ok(CommandSink(MaxCommandErrors + 1, false))
    ensures RunLine86(seq(12, _ => 1)) == Raise(AttributeError)
  {
    var ten: seq<int> := seq(10, _ => 1);
    var eleven: seq<int> := seq(11, _ => 1);
    var twelve: seq<int> := seq(12, _ => 1);
    assert eleven[..10] == ten;
    assert twelve[..11] == eleven;
    ShortRunsNotSeen(ten);
    TrailingAllFailures(eleven);
    assert FailureRunSeen(eleven);
    RunDisablesAfterElevenFailures(eleven);
    RunLine86RaisesAfterDisable(eleven);
    RunLine86RaisesAfterDisable(twelve);
  }
}
