/**
 * The `scrub_data_parallel` command: read the validator's report, then start
 * one `scrub_data` run per reported model label.
 */
module ScrubDataParallel {
  import opened PyText
  import opened ValidationOutput

  /** The f-string handed to `shlex.split`, as its words separated by single spaces. */
  function ScrubCommand(model: string): string {
    Join(["python", "manage.py", "scrub_data", "--model", model, "--remove-fake-data"], ' ')
  }

  /** The argument vector of one sub-process: a list of non-empty arguments without blanks. */
  function ScrubArgv(model: string): (argv: seq<string>)
    ensures forall i :: 0 <= i < |argv| ==> IsWord(argv[i])
  {
    Words(ScrubCommand(model))
  }

  /** For a reported label the command line splits into six arguments, with no `--older-than`. */
  lemma ScrubArgvShape(model: string)
    requires IsLabel(model)
    ensures ScrubArgv(model) == ["python", "manage.py", "scrub_data", "--model", model, "--remove-fake-data"]
    ensures "--older-than" !in ScrubArgv(model)
  {
    assert IsWord(model) by {
      forall i | 0 <= i < |model| ensures NotBlank(model[i]) { assert IsLabelChar(model[i]); }
    }
    WordsJoin(["python", "manage.py", "scrub_data", "--model", model, "--remove-fake-data"]);
    assert IsLabelChar(model[0]);
  }

  /**
   * `Command.handle`: the argument vector of every sub-process submitted,
   * one per reported label in report order.
   */
  method Handle(output: string) returns (tasks: seq<seq<string>>)
    ensures |tasks| == |Labels(Split(output, '\n'))|
    ensures forall i :: 0 <= i < |tasks| ==>
      tasks[i] == ["python", "manage.py", "scrub_data", "--model", Labels(Split(output, '\n'))[i], "--remove-fake-data"]
  {
    var models := ExtractLabels(output);
    tasks := SubmitAll(models);
    forall k | 0 <= k < |tasks|
      ensures tasks[k] == ["python", "manage.py", "scrub_data", "--model", models[k], "--remove-fake-data"]
    {
      ScrubArgvShape(models[k]);
    }
  }

  /** `handle`'s loop: one sub-process per label, in order. */
  method SubmitAll(models: seq<string>) returns (tasks: seq<seq<string>>)
    ensures |tasks| == |models|
    ensures forall k :: 0 <= k < |models| ==> tasks[k] == ScrubArgv(models[k])
  {
    tasks := [];
    for i := 0 to |models|
      invariant |tasks| == i
      invariant forall k :: 0 <= k < i ==> tasks[k] == ScrubArgv(models[k])
    {
      tasks := tasks + [ScrubArgv(models[i])];
    }
  }
}
