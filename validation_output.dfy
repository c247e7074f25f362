/**
 * Reading the text that the `scrub_validation` sub-command prints: both
 * parallel commands keep, in order, the label captured by
 * `^Model '([a-zA-Z0-9_.]+)'.*` from each newline-separated line.
 */
module ValidationOutput {
  import opened Wrappers
  import opened PyText

  /** The character class `[a-zA-Z0-9_.]`. */
  predicate IsLabelChar(c: char) {
    ('a' <= c <= 'z') || ('A' <= c <= 'Z') || ('0' <= c <= '9') || c == '_' || c == '.'
  }

  /** What the capture group can hold: one or more characters of the class. */
  predicate IsLabel(s: string) {
    |s| > 0 && forall i :: 0 <= i < |s| ==> IsLabelChar(s[i])
  }

  const ModelPrefix: string := "Model '"

  /**
   * `re.search(r"^Model '([a-zA-Z0-9_.]+)'.*", line)` and its group 1. Without
   * MULTILINE the anchor only matches at the start of the line; the greedy
   * class run cannot give characters back to the closing quote, since the
   * quote is not in the class, so the run must be maximal and be followed by
   * `'`; `.*` then matches whatever is left (a line from `split('\n')` has
   * no newline in it).
   */
  function MatchLine(line: string): (captured: Option<string>)
    ensures captured.Some? ==> IsLabel(captured.value)
  {
    if StartsWith(line, ModelPrefix) then
      var tail := line[|ModelPrefix|..];
      var run := Span(tail, IsLabelChar);
      if |run| > 0 && |run| < |tail| && tail[|run|] == '\'' then Some(run) else None
    else None
  }

  /**
   * A line yields `name` exactly when it begins with `Model '`, then
   * `name` (non-empty, drawn from the class), then a closing quote, whatever
   * follows.
   */
  lemma MatchLineIff(line: string, name: string)
    ensures MatchLine(line) == Some(name) <==> IsLabel(name) && StartsWith(line, ModelPrefix + name + "'")
  {
    MatchLineShape(line);
    if IsLabel(name) && StartsWith(line, ModelPrefix + name + "'") {
      var full := ModelPrefix + name + "'";
      assert line == full + line[|full|..];
      MatchLineOf(name, line[|full|..]);
    }
  }

  /** Whatever follows the closing quote, the label is captured. */
  lemma MatchLineOf(name: string, rest: string)
    requires IsLabel(name)
    ensures MatchLine(ModelPrefix + name + "'" + rest) == Some(name)
  {
    var line := ModelPrefix + name + "'" + rest;
    var after := "'" + rest;
    assert line == ModelPrefix + (name + after);
    assert line[..|ModelPrefix|] == ModelPrefix;
    assert line[|ModelPrefix|..] == name + after;
    assert after[0] == '\'';
    SpanOf(name, after, IsLabelChar);
    assert (name + after)[|name|] == '\'';
  }

  /** A captured label is drawn from the class and sits between `Model '` and a quote at the start of the line. */
  lemma MatchLineShape(line: string)
    ensures MatchLine(line).Some? ==>
      IsLabel(MatchLine(line).value) && StartsWith(line, ModelPrefix + MatchLine(line).value + "'")
  {
    if MatchLine(line).Some? {
      var name := MatchLine(line).value;
      var tail := line[|ModelPrefix|..];
      assert line == ModelPrefix + tail;
      assert tail[..|name| + 1] == name + "'";
      assert (ModelPrefix + tail)[..|ModelPrefix| + |name| + 1] == ModelPrefix + tail[..|name| + 1];
    }
  }

  /** The labels the lines yield, in line order, duplicates kept. */
  function Labels(lines: seq<string>): (labels: seq<string>)
    ensures |labels| <= |lines|
    ensures forall i :: 0 <= i < |labels| ==> IsLabel(labels[i])
  {
    if |lines| == 0 then []
    else
      var last := lines[|lines| - 1];
      Labels(lines[..|lines| - 1]) + match MatchLine(last) {
        case Some(l) => MatchLineIff(last, l); [l]
        case None => []
      }
  }

  /** Every line contributes on its own: the labels of two blocks of lines follow one another. */
  lemma {:induction false} LabelsAppend(a: seq<string>, b: seq<string>)
    ensures Labels(a + b) == Labels(a) + Labels(b)
    decreases |b|
  {
    if |b| > 0 {
      var b' := b[..|b| - 1];
      assert (a + b)[..|a + b| - 1] == a + b';
      assert (a + b)[|a + b| - 1] == b[|b| - 1];
      LabelsAppend(a, b');
    } else {
      assert a + b == a;
    }
  }

  /** One line yields its match, or nothing. */
  lemma LabelsOfLine(line: string)
    ensures Labels([line]) == if MatchLine(line).Some? then [MatchLine(line).value] else []
  {
    assert [line][..0] == [];
  }

  /**
   * The extraction loop of both parallel commands: split the validator's
   * output on `\n` and append the label of every line that matches.
   */
  method ExtractLabels(output: string) returns (models: seq<string>)
    ensures models == Labels(Split(output, '\n'))
    ensures |models| <= Count(output, '\n') + 1
    ensures forall i :: 0 <= i < |models| ==> IsLabel(models[i])
  {
    var lines := Split(output, '\n');
    models := [];
    for i := 0 to |lines|
      invariant models == Labels(lines[..i])
    {
      assert lines[..i + 1][..i] == lines[..i];
      match MatchLine(lines[i]) {
        case Some(name) => models := models + [name];
        case None =>
      }
    }
    assert lines[..|lines|] == lines;
    SplitCount(output, '\n');
  }
}
