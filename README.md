# django-scrubber: the scrubbing rule pipeline, in Dafny

django-scrubber replaces personal data in a Django database with fake or
neutral values. Its `scrub_data` management command does the following:

- It refuses to run outside a staging-like environment, and in strict mode
  when the validator reports unscrubbed text fields. `ENVIRONMENT` is the
  project's own setting: when the project does not define it, reading it
  raises AttributeError and the command stops there.
- It picks the models to visit: every model that `apps.get_models()` lists
  (registered models other than auto-created many-to-many through models
  and swapped-out models), or the one that `--model app_label.ModelName`
  names, which the registry finds even when it is auto-created or swapped. It skips proxy models, unmanaged
  models when so configured, and models of apps not on the apps list.
- For each model it builds a table from fields to scrubbing rules. A global
  rule applies to the forward, non-many-to-many fields (`_meta.fields`) and
  is keyed by field name and, failing that, by field class. The
  model's own rules come from a `Scrubbers` class, or from a class that the
  settings map to the model's label, and they override the global ones.
- It drops the fields marked `Keep`. When nothing is left, the model is
  skipped entirely.
- It realises lazy rules (`callable(v) and v(k) or v`) and drops the
  disabled (falsy) ones. The result is what one bulk update writes.
- When a table is trimmed, `_force_delete` deletes rows. After a protection
  error a queryset is deleted once more; a model instance is not, because
  the retry first calls `annotate`, which an instance does not have.

Two wrapper commands, `trim_data` and `scrub_data_parallel`, do the same
steps. Each reads the validator's text report and collects the model label
from every line matching `^Model '([a-zA-Z0-9_.]+)'.*`. Each then starts
one `scrub_data` sub-process per label, with a fixed argument vector.

The files are:

- `wrappers.dfy`: `Option` and `Result`.
- `py_text.dfy`: the Python string built-ins the commands use. These are
  `str.split`, `str.rsplit(sep, 1)`, `str()` of an integer (with the
  reading back of the digits as its partner), ASCII `str.lower` and
  `shlex.split` on quote-free text.
- `validation_output.dfy`: the line matcher and the label-extraction loop
  shared by both wrapper commands.
- `scrub_data.dfy`: the rule pipeline, model selection, the gate, the
  `--model` split, the loop over models, and `_force_delete`.
- `trim_data.dfy` and `scrub_data_parallel.dfy`: the argument vectors and
  each command's `handle`.

The loops in the three `handle`s and in `_get_model_scrubbers` are
`method`s with loop invariants. Each is proved equal to a function. The properties are then
proved about those functions. The foreign parts are parameters:

- lazy generators are `Config.invoke`: whether a call raises, and what it returns otherwise;
- importable scrubber classes are `Modules`;
- the model registry is a `seq<Model>`;
- the validator's finding is a count, `unscrubbed`;
- the database's answer to a delete is `Database`.

`dict`s are `map`s. Django guarantees that field names are unique within a
model. The model assumes this through `WellFormed`, and re-keying by field
name relies on it.

## Model

| member | source | states |
|---|---|---|
| PyText.Split | django_scrubber/management/commands/trim_data.py:36 | `split` always yields at least one piece |
| PyText.JoinSplit | django_scrubber/management/commands/trim_data.py:36 | splitting the report on `\n` loses nothing: joining the pieces gives the text back |
| PyText.SplitPiecesClean | django_scrubber/management/commands/trim_data.py:36 | no line produced by the split contains a newline |
| PyText.SplitCount | django_scrubber/management/commands/trim_data.py:36 | the split yields one more line than there are newlines |
| PyText.RSplitOnce | django_scrubber/management/commands/scrub_data.py:59 | with no dot the result is the one-element list; otherwise two parts, rejoined by the dot, the second free of dots |
| PyText.RSplitOnceOf | django_scrubber/management/commands/scrub_data.py:59 | `a.b`, with no dot in `b`, splits into exactly `a` and `b` |
| PyText.NatToString | django_scrubber/management/commands/trim_data.py:14 | `str(n)` of a natural number is a non-empty string of digits without a leading zero |
| PyText.NatToStringValue | django_scrubber/management/commands/trim_data.py:14 | the digits of `str(n)` denote `n` |
| PyText.IntToString | django_scrubber/management/commands/trim_data.py:14 | `str(i)` is non-empty, starts with `-` exactly when `i` is negative, has only digits after any sign, and its digits have no leading zero |
| PyText.IntToStringValue | django_scrubber/management/commands/trim_data.py:14 | reading `str(i)` back as a signed decimal gives `i` |
| PyText.IntToStringInjective | django_scrubber/management/commands/trim_data.py:14 | different day counts give different `--older-than` texts |
| PyText.Lower | django_scrubber/management/commands/scrub_data.py:61 | no ASCII capital is left; each capital moves to the small letter 32 code points above it; every other character is unchanged; the length is kept |
| PyText.LowerIdempotent | django_scrubber/management/commands/scrub_data.py:61 | lower-casing an already lower-cased name changes nothing |
| PyText.Span | django_scrubber/management/commands/trim_data.py:37 | a greedy character-class run is a prefix of class characters followed by a non-class character or the end |
| PyText.SpanOf | django_scrubber/management/commands/trim_data.py:37 | a run of class characters stopped by a non-class character is exactly the greedy run |
| PyText.Words | django_scrubber/management/commands/trim_data.py:14 | every token `shlex.split` yields is non-empty and blank-free |
| PyText.WordsAtSpace | django_scrubber/management/commands/trim_data.py:14 | tokenising `a + " " + b` gives the tokens of `a` followed by those of `b` |
| PyText.WordsAfterWord | django_scrubber/management/commands/trim_data.py:14 | a blank-free word followed by a blank or by nothing is the first token |
| PyText.WordsSingle | django_scrubber/management/commands/trim_data.py:14 | a blank-free non-empty word is a single token |
| PyText.WordsJoin | django_scrubber/management/commands/trim_data.py:14 | tokenising words joined by single spaces gives back the words |
| ValidationOutput.MatchLine | django_scrubber/management/commands/trim_data.py:37-38 | a captured group is non-empty and drawn from `[a-zA-Z0-9_.]` |
| ValidationOutput.MatchLineIff | django_scrubber/management/commands/trim_data.py:37-38 | a line yields `name` if and only if `name` is a non-empty run of `[a-zA-Z0-9_.]` and the line starts with `Model '` + name + `'` |
| ValidationOutput.MatchLineOf | django_scrubber/management/commands/trim_data.py:37-38 | whatever follows the closing quote, the text between `Model '` and the quote is captured |
| ValidationOutput.MatchLineShape | django_scrubber/management/commands/scrub_data_parallel.py:33-34 | a captured label is non-empty, drawn from the class, and sits between the anchored `Model '` and a quote |
| ValidationOutput.Labels | django_scrubber/management/commands/trim_data.py:36-38 | at most one label per line, each non-empty and drawn from `[a-zA-Z0-9_.]` |
| ValidationOutput.LabelsAppend | django_scrubber/management/commands/trim_data.py:36-38 | labels keep line order and duplicates: two blocks of lines give their labels one after the other |
| ValidationOutput.LabelsOfLine | django_scrubber/management/commands/scrub_data_parallel.py:32-34 | a single line contributes its match, or nothing |
| ValidationOutput.ExtractLabels | django_scrubber/management/commands/scrub_data_parallel.py:30-34 | the loop's list is the labels of the `\n`-separated lines in order; there are at most as many as lines, and each is a valid label |
| TrimData.ScrubArgv | django_scrubber/management/commands/trim_data.py:13-14 | every argument of the sub-process is non-empty and blank-free |
| TrimData.IntToStringIsWord | django_scrubber/management/commands/trim_data.py:14 | the text of the days is a single argument |
| TrimData.ScrubArgvShape | django_scrubber/management/commands/trim_data.py:13-14 | for label m and days n the argument vector is `python manage.py scrub_data --model m --older-than str(n) --remove-fake-data` |
| TrimData.SubmitAll | django_scrubber/management/commands/trim_data.py:42-45 | the loop submits one argument vector per label, in label order |
| TrimData.TasksShape | django_scrubber/management/commands/trim_data.py:42-45 | those vectors are the eight-word command lines, and say `1095` when the days are the default |
| TrimData.DefaultOlderThanText | django_scrubber/management/commands/trim_data.py:29 | the default 1095 is passed on as the text `1095` |
| TrimData.Handle | django_scrubber/management/commands/trim_data.py:32-45 | the days used are the argument or 1095; one task per extracted label, in order, each with the eight-word vector for that label; without `--older-than` every task says `1095` |
| ScrubDataParallel.ScrubArgv | django_scrubber/management/commands/scrub_data_parallel.py:13-15 | every argument of the sub-process is non-empty and blank-free |
| ScrubDataParallel.ScrubArgvShape | django_scrubber/management/commands/scrub_data_parallel.py:13-15 | for label m the vector is `python manage.py scrub_data --model m --remove-fake-data`, with no `--older-than` |
| ScrubDataParallel.SubmitAll | django_scrubber/management/commands/scrub_data_parallel.py:38-41 | the loop submits one argument vector per label, in label order |
| ScrubDataParallel.Handle | django_scrubber/management/commands/scrub_data_parallel.py:29-41 | one task per extracted label, in order, each with the six-word vector for that label |
| ScrubData.WellFormedDistinct | django_scrubber/management/commands/scrub_data.py:147 | fields of one model have distinct names, so re-keying a table by name loses no entry |
| ScrubData.BuildGlobalTable | django_scrubber/management/commands/scrub_data.py:78-83 | one of `_meta.fields` is in the table exactly when its name or its class is a global key; the name key wins over the class key; a field matching neither is absent |
| ScrubData.PublicAttrs | django_scrubber/management/commands/scrub_data.py:234-239 | the kept attributes are attributes of the class, none named with a leading `_`, and no more than there were |
| ScrubData.PublicAttrsExact | django_scrubber/management/commands/scrub_data.py:234-239 | exactly the attributes whose names do not start with `_` are kept |
| ScrubData.PublicAttrsAppend | django_scrubber/management/commands/scrub_data.py:234-239 | the filter keeps definition order |
| ScrubData.FindField | django_scrubber/management/commands/scrub_data.py:225 | the field found has the given name or column name; when none is found, no field has either |
| ScrubData.CollectDeclared | django_scrubber/management/commands/scrub_data.py:221-228 | every declared rule is for a field of the model; at most one warning per attribute |
| ScrubData.DeclaredRulesSound | django_scrubber/management/commands/scrub_data.py:221-228 | every declared rule is for a field of the model that a non-`Meta` attribute names |
| ScrubData.DeclaredRulesComplete | django_scrubber/management/commands/scrub_data.py:221-226 | every field that a non-`Meta` attribute names gets a rule |
| ScrubData.DeclaredRulesLastWins | django_scrubber/management/commands/scrub_data.py:225-226 | a field's rule is the value of the last attribute naming it |
| ScrubData.DeclaredMissingExact | django_scrubber/management/commands/scrub_data.py:227-228 | a warning is issued for exactly the non-`Meta` names that match no field |
| ScrubData.ParseScrubberClass | django_scrubber/management/commands/scrub_data.py:190-199 | a path without a dot is an ImportError; every error names the path and is an import, type or attribute error |
| ScrubData.ParseScrubberClassSplit | django_scrubber/management/commands/scrub_data.py:190-199 | `mod.Cls` imports `mod`; an empty or missing module is an ImportError; a module name starting with `.` is an uncaught TypeError; a missing class is an uncaught AttributeError; otherwise the class is returned |
| ScrubData.ModelScrubbers | django_scrubber/management/commands/scrub_data.py:202-231 | declared rules only name fields of the model; with no mapping entry and no `Scrubbers` class there are none; an exception only comes from the mapped path, and is one of the import-stage errors |
| ScrubData.ModelScrubbersSource | django_scrubber/management/commands/scrub_data.py:210-221 | a mapped class that resolves supplies the public attributes collected, whatever `Scrubbers` class the model has; an unmapped model with a `Scrubbers` class collects its public attributes |
| ScrubData.CollectDeclaredByFields | django_scrubber/management/commands/scrub_data.py:221-228 | the declared rules depend on the model only through its fields |
| ScrubData.CollectRules | django_scrubber/management/commands/scrub_data.py:221-228 | the loop over public attributes collects the rules and warnings that `CollectDeclared` specifies |
| ScrubData.GetModelScrubbers | django_scrubber/management/commands/scrub_data.py:202-231 | the method computes exactly `ModelScrubbers`, whose sources ModelScrubbersSource states; every rule is for a field of the model |
| ScrubData.Merged | django_scrubber/management/commands/scrub_data.py:85 | model-declared rules replace global ones for the same field; every other entry is the global rule, present only for one of `_meta.fields` that has one |
| ScrubData.WithoutKept | django_scrubber/management/commands/scrub_data.py:88-92 | exactly the entries whose rule is not `Keep` remain, unchanged |
| ScrubData.DropKept | django_scrubber/management/commands/scrub_data.py:88-92 | the loop keeps every non-`Keep` entry with the same rule and drops the `Keep` ones |
| ScrubData.WithoutKeptEmpty | django_scrubber/management/commands/scrub_data.py:88-95 | the filtered table is empty exactly when every rule was `Keep`, the case in which the model is skipped |
| ScrubData.Realize | django_scrubber/management/commands/scrub_data.py:147 | for a call that returns: a non-callable rule is unchanged; a callable becomes itself or its result; the outcome is truthy exactly when the rule was callable or truthy |
| ScrubData.CallCallables | django_scrubber/management/commands/scrub_data.py:143-147 | it raises exactly when some callable rule raises, naming the fields whose call raises; otherwise the realised table has one entry per field name, holding that field's realised rule |
| ScrubData.CallCallablesCases | django_scrubber/management/commands/scrub_data.py:143-147 | a raising call makes the whole table raise, with its field named; otherwise entries are re-keyed by field name; a non-callable rule is kept; a callable with a truthy result becomes that result; a callable with a falsy result stays the callable |
| ScrubData.FilterOutDisabled | django_scrubber/management/commands/scrub_data.py:242-247 | exactly the truthy entries survive, unchanged |
| ScrubData.FilterOutDisabledSpec | django_scrubber/management/commands/scrub_data.py:242-247 | keys only shrink; applying the filter twice equals applying it once |
| ScrubData.RealizedEntries | django_scrubber/management/commands/scrub_data.py:97 | realising and filtering raises exactly when a lazy rule raises; otherwise a field is present exactly when its rule is callable or truthy, so a lazy rule is never disabled |
| ScrubData.KeptNeverRealized | django_scrubber/management/commands/scrub_data.py:88-97 | a field marked `Keep` never reaches the update and is never called; realisation raises exactly when some rule's call raises; otherwise every non-`Keep` field reaches the update exactly when its rule is callable or truthy, with its realised value |
| ScrubData.RaisingFieldsWithin | django_scrubber/management/commands/scrub_data.py:143-147 | when a rule of a table raises, some field is named as raising, and only fields of the table's model are |
| ScrubData.Selected | django_scrubber/management/commands/scrub_data.py:70-76 | a selected model is not a proxy, is managed when unmanaged ones are skipped, and belongs to a listed app when there is a list; every model meeting those three is selected |
| ScrubData.FindModel | django_scrubber/management/commands/scrub_data.py:61 | the model found has the app label and the lower-cased model name; when none is found, no registered model has both |
| ScrubData.ListedModels | django_scrubber/management/commands/scrub_data.py:67 | `get_models()` lists exactly the registered models that are neither auto-created nor swapped out |
| ScrubData.ListedModelsAppend | django_scrubber/management/commands/scrub_data.py:67 | the listing keeps registry order |
| ScrubData.TargetModels | django_scrubber/management/commands/scrub_data.py:58-67 | the models visited are registered models; without `--model` they are exactly the listed ones, in order; with it there is one |
| ScrubData.ModelArgument | django_scrubber/management/commands/scrub_data.py:59-63 | `app.Name` is split at its last dot; a found model is the only one visited; an unknown one raises the CommandError |
| ScrubData.ModelArgumentWithoutDot | django_scrubber/management/commands/scrub_data.py:59 | a value with no dot fails in the split itself, not with the CommandError |
| ScrubData.Resolve | django_scrubber/management/commands/scrub_data.py:70-97 | a model that is not selected contributes nothing; an update is labelled with its model; an exception comes only from a selected model, either from its mapped scrubber path (raised before any warning) or from a lazy rule for one of its fields (a non-empty set of them) |
| ScrubData.ResolvedStep | django_scrubber/management/commands/scrub_data.py:78-99 | for a selected model whose own rules resolve: the warnings issued are the names of missing fields, whether or not it then raises; it raises exactly when a merged rule's call raises; otherwise there is no update when every merged rule is `Keep`, and the model's update writes exactly its non-`Keep`, callable-or-truthy fields |
| ScrubData.Fold | django_scrubber/management/commands/scrub_data.py:70-132 | the empty loop raises nothing |
| ScrubData.FoldLength | django_scrubber/management/commands/scrub_data.py:70-132 | the loop performs at most one update per model |
| ScrubData.FoldNext | django_scrubber/management/commands/scrub_data.py:70-132 | one more model either ends the loop with its exception, after appending the warnings it issued, or appends its update and warnings |
| ScrubData.FoldStops | django_scrubber/management/commands/scrub_data.py:70-132 | after an exception the remaining models are not visited |
| ScrubData.FoldSound | django_scrubber/management/commands/scrub_data.py:70-132 | every update of the loop is one that a model resolved to |
| ScrubData.FoldComplete | django_scrubber/management/commands/scrub_data.py:70-132 | when nothing raised, every model resolved and each update it produced was run |
| ScrubData.FoldFirstFailure | django_scrubber/management/commands/scrub_data.py:70-132 | the exception raised is that of the first model that failed |
| ScrubData.FoldNoError | django_scrubber/management/commands/scrub_data.py:70-132 | a loop in which every model resolves raises nothing |
| ScrubData.FoldWarningsDone | django_scrubber/management/commands/scrub_data.py:70-132 | when nothing raised, the warnings are those of every model, in order |
| ScrubData.FoldWarningsAt | django_scrubber/management/commands/scrub_data.py:70-132 | when model `j` is the first to raise, the warnings are those of the models up to and including `j`, in order |
| ScrubData.FoldWarningsRaised | django_scrubber/management/commands/scrub_data.py:70-132 | when something raised, the warnings are those of every visited model, in order, up to and including the one that raised |
| ScrubData.FoldSingle | django_scrubber/management/commands/scrub_data.py:70-132 | a loop over one model has at most one update, and only that model's |
| ScrubData.StepsSound | django_scrubber/management/commands/scrub_data.py:70-97 | every update comes from a selected model in the list and is that model's resolution |
| ScrubData.StepsComplete | django_scrubber/management/commands/scrub_data.py:70-97 | when nothing raised, every model's update is in the run |
| ScrubData.FirstFailure | django_scrubber/management/commands/scrub_data.py:70-97 | when something raised (a class-path error or a lazy rule's exception), it is the error of a model all of whose predecessors resolved |
| ScrubData.Scrub | django_scrubber/management/commands/scrub_data.py:40-140 | an undefined `ENVIRONMENT` setting raises before anything else; the command refuses exactly when the setting is outside STAGING, DEVELOP or NONPROD; it refuses in strict mode exactly when fields are unscrubbed; sessions are truncated unless kept; fake data are truncated when asked; a bad `--model` raises before any update |
| ScrubData.ResolveModel | django_scrubber/management/commands/scrub_data.py:71-97 | one iteration of the loop over models computes that model's resolution |
| ScrubData.ScrubTargets | django_scrubber/management/commands/scrub_data.py:70-132 | the loop over the target models computes the run that `Fold` specifies, stopping at the first exception |
| ScrubData.Handle | django_scrubber/management/commands/scrub_data.py:40-140 | the command computes `Scrub` |
| ScrubData.ScrubbedRun | django_scrubber/management/commands/scrub_data.py:57-97 | the updates performed are those of the loop over the target models |
| ScrubData.ScrubbedSound | django_scrubber/management/commands/scrub_data.py:57-97 | every model updated is a selected, registered model, updated with its resolution |
| ScrubData.NamedModelOnly | django_scrubber/management/commands/scrub_data.py:58-61 | with `--model`, at most the one named model is updated |
| ScrubData.OneModelOneStep | django_scrubber/management/commands/scrub_data.py:61 | a run over one model has at most one update, labelled with that model |
| ScrubData.ForceDelete | django_scrubber/management/commands/scrub_data.py:161-169 | as written: one or two deletes; an error other than protection on the first propagates, and nothing else does; a protected queryset is retried once and an instance is not; no delete carries the hard-delete flag |
| ScrubData.ForceDeleteIntended | django_scrubber/management/commands/scrub_data.py:161-169 | as intended: a protected first attempt is retried once with the hard-delete flag, and a failed retry is only logged |
| ScrubData.HardDeleteFlagIsLost | django_scrubber/management/commands/scrub_data.py:164-168 | a database that accepts hard-flagged deletes keeps the rows as written and removes them as intended, for both kinds of target |

## Findings

| source | as written | input that shows it | evidently intended | confidence | as-written member | corrected member |
|---|---|---|---|---|---|---|
| django_scrubber/management/commands/scrub_data.py:164-168 | the retry calls `objs.annotate(...)` and throws the returned queryset away, then repeats a plain `objs.delete()`; for a model instance `annotate` does not exist, so the retry raises AttributeError before any delete | any protected row, with a database that accepts a delete only when it carries `allow_hard_delete` | the retry deletes the annotated objects, so the hard-delete flag reaches the delete | not executed | ScrubData.ForceDelete (ScrubData.HardDeleteFlagIsLost) | ScrubData.ForceDeleteIntended |

The rest of the model uses the code as written. The finding only concerns
`_force_delete`, which the model covers on its own.

Other behaviours are modelled as written. The source does not say whether they
are intended:

- During realisation, a lazy rule whose result is falsy yields the callable
  itself, so it survives the falsy filter.
- A mapped scrubber class whose module imports but lacks the class raises
  AttributeError, which `_parse_scrubber_class_from_string` does not catch.
  A mapped path whose module part starts with a dot makes
  `importlib.import_module` raise TypeError (a relative import needs a
  package), which it does not catch either. The handler's log message
  ('Mapped scrubber class "%s" could not be found.') describes a class
  missing from its module, so the escaping AttributeError may be an
  oversight. Which was meant cannot be told from the code.
- An exception raised by a lazy rule inside `_call_callables` is not
  caught. It ends `handle`: the updates of the earlier models stay done
  (`Outcome.Raised` keeps them), and neither truncation runs.

## Left out

- ORM work is not modelled, since it is foreign code: the update call, the
  translation of IntegrityError and DataError, the `exclude` option, and the
  actual row deletes. Session and FakeData truncation appear only as the
  two flags of `Outcome.Finished`.
- `_get_options` and everything it drives are not modelled, because they are
  framework side effects: signal disconnection, the trim-table cutoff (it
  depends on `datetime.now()`), and the `_large_delete` call.
- `_large_delete` pagination and its thread pool are not modelled. Only one
  fact is noted: every dependent-`orders` phase finishes before the record
  phases, and the whole-queryset sweep runs last. `_force_delete` is
  modelled on its own, once per target.
- `ScrubberValidatorService` is not part of this model. Its report enters as
  the count `unscrubbed`, and the text it prints enters as a string.
- `importlib.import_module` and `getattr` are a lookup in a `Modules` map.
- `subprocess.run`, the process pools, done-callbacks and logging are I/O and
  concurrency. The wrapper commands are modelled as the list of argument
  vectors they submit, in order.
- Warnings and log messages are kept only as the field names warned about.
  A model that raises from a lazy rule keeps the warnings it issued before.
- Dictionary iteration order is not modelled: tables are `map`s. So when
  several lazy rules of one model raise, the model does not say which call
  raised first. `Failure.GeneratorFailure` names the set of fields whose
  call raises, and the exception is one of theirs. The
  registry is a list, and `get_models()` keeps its order.
- Which models are auto-created or swapped out is an input, the flag
  `Model.autoCreatedOrSwapped`; Django's rules for setting it are not
  modelled.
- ScrubData.FindModel: lower-cases ASCII letters only, since `str.lower` on
  other Unicode text is not modelled.
- TrimData.ScrubArgvShape: `shlex.split` is modelled as splitting on
  whitespace. This holds because the labels and numbers it sees contain no
  quote, backslash or blank.
- A `Keep` used as a generator result is just another value. The class
  `Keep` itself is callable in Python, but the pipeline removes it before
  `_call_callables`.
- The `--older-than` option of `scrub_data` only feeds the trim cutoff,
  which is left out.
