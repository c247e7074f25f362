/**
 * The `trim_data` command: read the validator's report, then start one
 * `scrub_data` run per reported model label, passing on `--older-than`.
 */
module TrimData {
  import opened Wrappers
  import opened PyText
  import opened ValidationOutput

  /** `--older-than` when it is not given. */
  const DefaultOlderThan: int := 1095

  /**
   * The f-string handed to `shlex.split`: its fixed words and the two
   * interpolated values (the label, and `str()` of the number of days),
   * separated by single spaces.
   */
  function ScrubCommand(model: string, daysText: string): string {
    Join(["python", "manage.py", "scrub_data", "--model", model, "--older-than", daysText, "--remove-fake-data"], ' ')
  }

  /** The argument vector of one sub-process: a list of non-empty arguments without blanks. */
  function ScrubArgv(model: string, daysText: string): (argv: seq<string>)
    ensures forall i :: 0 <= i < |argv| ==> IsWord(argv[i])
  {
    Words(ScrubCommand(model, daysText))
  }

  /** The text of a number has no blank in it, so it stays one argument. */
  lemma IntToStringIsWord(n: int)
    ensures IsWord(IntToString(n))
  {
    var t := IntToString(n);
    forall i | 0 <= i < |t| ensures NotBlank(t[i]) { assert IsDigitOrMinus(t[i]); }
  }

  /** For a reported label and the text of a number the command line splits into the eight expected arguments. */
  lemma ScrubArgvShape(model: string, days: int)
    requires IsLabel(model)
    ensures ScrubArgv(model, IntToString(days))
         == ["python", "manage.py", "scrub_data", "--model", model, "--older-than", IntToString(days), "--remove-fake-data"]
  {
    var ws := ["python", "manage.py", "scrub_data", "--model", model, "--older-than", IntToString(days), "--remove-fake-data"];
    IntToStringIsWord(days);
    assert IsWord(model) by {
      forall i | 0 <= i < |model| ensures NotBlank(model[i]) { assert IsLabelChar(model[i]); }
    }
    WordsJoin(ws);
  }

  /**
   * `Command.handle`: the number of days used, and the argument vector of
   * every sub-process submitted, one per reported label in report order.
   */
  method Handle(output: string, olderThan: Option<int>) returns (days: int, tasks: seq<seq<string>>)
    ensures days == if olderThan.Some? then olderThan.value else DefaultOlderThan
    ensures |tasks| == |Labels(Split(output, '\n'))|
    ensures forall i :: 0 <= i < |tasks| ==>
      tasks[i] == ["python", "manage.py", "scrub_data", "--model", Labels(Split(output, '\n'))[i],
                   "--older-than", IntToString(days), "--remove-fake-data"]
    ensures olderThan.None? ==> forall i :: 0 <= i < |tasks| ==> tasks[i][6] == "1095"
  {
    days := if olderThan.Some? then olderThan.value else DefaultOlderThan;
    var models := ExtractLabels(output);
    tasks := SubmitAll(models, IntToString(days));
    TasksShape(models, days, tasks);
  }

  /** `handle`'s loop: one sub-process per label, in order, each given the same text for the days. */
  method SubmitAll(models: seq<string>, daysText: string) returns (tasks: seq<seq<string>>)
    ensures |tasks| == |models|
    ensures forall k :: 0 <= k < |models| ==> tasks[k] == ScrubArgv(models[k], daysText)
  {
    tasks := [];
    for i := 0 to |models|
      invariant |tasks| == i
      invariant forall k :: 0 <= k < i ==> tasks[k] == ScrubArgv(models[k], daysText)
    {
      tasks := tasks + [ScrubArgv(models[i], daysText)];
    }
  }

  /** One `ScrubArgv` per reported label is the list of eight-argument command lines. */
  lemma TasksShape(models: seq<string>, days: int, tasks: seq<seq<string>>)
    requires |tasks| == |models| && forall k :: 0 <= k < |models| ==> IsLabel(models[k])
    requires forall k :: 0 <= k < |tasks| ==> tasks[k] == ScrubArgv(models[k], IntToString(days))
    ensures forall k :: 0 <= k < |tasks| ==>
      tasks[k] == ["python", "manage.py", "scrub_data", "--model", models[k], "--older-than", IntToString(days), "--remove-fake-data"]
    ensures days == DefaultOlderThan ==> forall k :: 0 <= k < |tasks| ==> tasks[k][6] == "1095"
  {
    forall k | 0 <= k < |tasks|
      ensures tasks[k] == ["python", "manage.py", "scrub_data", "--model", models[k], "--older-than", IntToString(days), "--remove-fake-data"]
    {
      ScrubArgvShape(models[k], days);
    }
    DefaultOlderThanText();
  }

  /** The default is passed on as the text `1095`. */
  lemma DefaultOlderThanText()
    ensures IntToString(DefaultOlderThan) == "1095"
  {
    assert NatToString(1) == "1";
    assert NatToString(10) == "10";
    assert NatToString(109) == "109";
  }
}
