/** The three thread functions of the utilities, run one at a time: the producer
    that filters lines into the input queue, a worker that drains the input queue
    into the output queue, and the printer that drains the output queue. The file
    system, the image decoder and the classifier are inputs (`Environment`). */
module Pipeline {
  import opened Wrappers
  import opened Text
  import opened Config
  import ImageExtension
  import Yolo
  import Queue

  /** What a worker learns about a path from outside the program. */
  datatype Environment = Environment(
    isRegularFile: string -> bool,                                  // std::filesystem::is_regular_file
    fileSize: string -> nat,                                        // std::filesystem::file_size
    decodes: string -> bool,                                        // cv::imread gives a non-empty image
    classify: (string, nat) -> Result<seq<Yolo.Prediction>, string>,  // model.predict on that image
    elapsedMs: string -> nat,                                       // the measured time, in milliseconds
    showConfidence: real -> string)                                 // std::to_string of a float

  /** Why a worker gave up on a path (each is an exception caught in the loop). */
  datatype ItemError =
    | NotRegularFile
    | EmptyFile
    | FileTooLarge
    | Undecodable
    | ClassifierFailed(what: string)

  /** A line the worker writes to the error stream. */
  datatype Diagnostic = Diagnostic(path: string, error: ItemError)

  /** `int` converted to `size_t` (as `top_k` is when passed to `predict`). */
  function SizeT(k: int): (r: nat)
    ensures 0 <= k < 0x1_0000_0000_0000_0000 ==> r == k
    ensures -0x1_0000_0000_0000_0000 <= k < 0 ==> r == k + 0x1_0000_0000_0000_0000
  {
    k % 0x1_0000_0000_0000_0000
  }

  // ---------------------------------------------------------------------------
  // thread_get_line

  /** Whether the producer enqueues a line: always when the extension check is
      disabled, otherwise when the path's extension is a supported image. */
  predicate Passes(line: string, c: Configuration, extensionOf: string -> string) {
    c.disableExtensionCheck || ImageExtension.IsSupportedImage(extensionOf(line))
  }

  /** The lines the producer enqueues, in input order. */
  function Accepted(lines: seq<string>, c: Configuration, extensionOf: string -> string): (r: seq<string>)
    ensures |r| <= |lines|
  {
    if lines == [] then []
    else
      var last := lines[|lines| - 1];
      Accepted(lines[..|lines| - 1], c, extensionOf) + (if Passes(last, c, extensionOf) then [last] else [])
  }

  lemma AcceptedStep(lines: seq<string>, i: nat, c: Configuration, extensionOf: string -> string)
    requires i < |lines|
    ensures Accepted(lines[..i + 1], c, extensionOf)
         == Accepted(lines[..i], c, extensionOf) + (if Passes(lines[i], c, extensionOf) then [lines[i]] else [])
  {
    assert lines[..i + 1][..i] == lines[..i];
  }

  /** Reads every line, enqueues those that pass, then closes the queue once. */
  method ThreadGetLine(q: Queue.TsQueue, lines: seq<string>, c: Configuration, extensionOf: string -> string)
    modifies q
    ensures q.items == old(q.items) + Accepted(lines, c, extensionOf)
    ensures q.closed && q.closeCount == old(q.closeCount) + 1
  {
    var i := 0;
    while i < |lines|
      invariant 0 <= i <= |lines|
      invariant q.items == old(q.items) + Accepted(lines[..i], c, extensionOf)
      invariant q.closeCount == old(q.closeCount)
    {
      var line := lines[i];
      ghost var before := q.items;
      if !c.disableExtensionCheck {
        if ImageExtension.IsSupportedImage(extensionOf(line)) {
          q.Push(line);
        }
      } else {
        q.Push(line);
      }
      assert q.items == before + (if Passes(line, c, extensionOf) then [line] else []);
      AcceptedStep(lines, i, c, extensionOf);
      i := i + 1;
    }
    assert lines[..i] == lines;
    q.Close();
  }

  /** Exactly the lines that pass are enqueued. */
  lemma {:induction false} AcceptedMembers(lines: seq<string>, c: Configuration, extensionOf: string -> string, x: string)
    ensures x in Accepted(lines, c, extensionOf) <==> x in lines && Passes(x, c, extensionOf)
  {
    if lines != [] {
      var init, last := lines[..|lines| - 1], lines[|lines| - 1];
      AcceptedMembers(init, c, extensionOf, x);
      assert x in lines <==> x in init || x == last by {
        assert lines == init + [last];
      }
      var before := Accepted(init, c, extensionOf);
      if Passes(last, c, extensionOf) {
        assert Accepted(lines, c, extensionOf) == before + [last];
        assert x in before + [last] <==> x in before || x == last;
      } else {
        assert Accepted(lines, c, extensionOf) == before;
      }
    }
  }

  /** Filtering keeps order: the lines of a concatenation are filtered piecewise. */
  lemma {:induction false} AcceptedConcat(a: seq<string>, b: seq<string>, c: Configuration, extensionOf: string -> string)
    ensures Accepted(a + b, c, extensionOf) == Accepted(a, c, extensionOf) + Accepted(b, c, extensionOf)
  {
    if b == [] {
      assert a + b == a;
    } else {
      var init := b[..|b| - 1];
      assert (a + b)[..|a + b| - 1] == a + init;
      AcceptedConcat(a, init, c, extensionOf);
    }
  }

  /** With the extension check disabled, every line is enqueued. */
  lemma {:induction false} AcceptedAllWhenDisabled(lines: seq<string>, c: Configuration, extensionOf: string -> string)
    requires c.disableExtensionCheck
    ensures Accepted(lines, c, extensionOf) == lines
  {
    if lines != [] {
      AcceptedAllWhenDisabled(lines[..|lines| - 1], c, extensionOf);
    }
  }

  // ---------------------------------------------------------------------------
  // thread_classify

  /** The predictions, joined as the worker joins them: `name confidence`, separated by `, `. */
  function JoinPredictions(predictions: seq<Yolo.Prediction>, show: real -> string): (r: string)
    ensures r == [] <==> predictions == []
  {
    if predictions == [] then []
    else
      var head := predictions[0].className + " " + show(predictions[0].confidence);
      if |predictions| == 1 then head else head + ", " + JoinPredictions(predictions[1..], show)
  }

  /** The record of one classified file: its path, the time if timing is on, and
      the predictions. The separator after the path is written whenever `top_k`
      is non-zero, even when there are no predictions. */
  function FormatRecord(path: string, c: Configuration, ms: nat, predictions: seq<Yolo.Prediction>,
                        show: real -> string): (r: string)
    ensures |path| <= |r| && r[..|path|] == path
    ensures !c.enableTiming && c.topK == 0 && predictions == [] ==> r == path
  {
    path
      + (if c.enableTiming then ", " + Decimal(ms) + "ms" else "")
      + (if c.topK != 0 then ", " else "")
      + JoinPredictions(predictions, show)
  }

  /** One iteration of the worker: the checks in the order the source makes them,
      then the classifier, then the record. */
  function Process(path: string, c: Configuration, env: Environment): (r: Result<string, ItemError>)
    ensures r.Ok? <==>
      && env.isRegularFile(path)
      && 0 < env.fileSize(path) <= c.maxFilesize
      && env.decodes(path)
      && env.classify(path, SizeT(c.topK)).Ok?
    ensures r.Ok? ==> |path| <= |r.value| && r.value[..|path|] == path
  {
    if !env.isRegularFile(path) then Err(NotRegularFile)
    else if env.fileSize(path) == 0 then Err(EmptyFile)
    else if env.fileSize(path) > c.maxFilesize then Err(FileTooLarge)
    else if !env.decodes(path) then Err(Undecodable)
    else
      match env.classify(path, SizeT(c.topK))
      case Err(what) => Err(ClassifierFailed(what))
      case Ok(predictions) =>
        Ok(FormatRecord(path, c, env.elapsedMs(path), predictions, env.showConfidence))
  }

  /** The records the worker pushes for a sequence of paths, in order. */
  function Records(paths: seq<string>, c: Configuration, env: Environment): (r: seq<string>)
    ensures |r| <= |paths|
  {
    if paths == [] then []
    else
      var last := Process(paths[|paths| - 1], c, env);
      Records(paths[..|paths| - 1], c, env) + (if last.Ok? then [last.value] else [])
  }

  /** The diagnostics the worker writes for a sequence of paths, in order. */
  function Failures(paths: seq<string>, c: Configuration, env: Environment): (r: seq<Diagnostic>)
    ensures |r| <= |paths|
    ensures forall i :: 0 <= i < |r| ==> r[i].path in paths && Process(r[i].path, c, env) == Err(r[i].error)
  {
    if paths == [] then []
    else
      var path := paths[|paths| - 1];
      var last := Process(path, c, env);
      Failures(paths[..|paths| - 1], c, env) + (if last.Err? then [Diagnostic(path, last.error)] else [])
  }

  lemma ProcessedStep(paths: seq<string>, k: nat, c: Configuration, env: Environment)
    requires k < |paths|
    ensures var outcome := Process(paths[k], c, env);
      && Records(paths[..k + 1], c, env)
         == Records(paths[..k], c, env) + (if outcome.Ok? then [outcome.value] else [])
      && Failures(paths[..k + 1], c, env)
         == Failures(paths[..k], c, env) + (if outcome.Err? then [Diagnostic(paths[k], outcome.error)] else [])
  {
    assert paths[..k + 1][..k] == paths[..k];
  }

  /** Drains a closed input queue: one record per file that passes every check,
      none for a file that fails one, which is reported instead. */
  method ThreadClassify(input: Queue.TsQueue, output: Queue.TsQueue, c: Configuration, env: Environment)
    returns (diagnostics: seq<Diagnostic>)
    requires input != output && input.closed
    modifies input, output
    ensures input.items == [] && input.closed && input.closeCount == old(input.closeCount)
    ensures output.items == old(output.items) + Records(old(input.items), c, env)
    ensures output.closed == old(output.closed) && output.closeCount == old(output.closeCount)
    ensures diagnostics == Failures(old(input.items), c, env)
  {
    ghost var pending := input.items;
    ghost var k := 0;
    diagnostics := [];
    while true
      invariant input.closed && 0 <= k <= |pending| && input.items == pending[k..]
      invariant output.items == old(output.items) + Records(pending[..k], c, env)
      invariant diagnostics == Failures(pending[..k], c, env)
      invariant input.closeCount == old(input.closeCount)
      invariant output.closed == old(output.closed) && output.closeCount == old(output.closeCount)
      decreases |input.items|
    {
      var value := input.Pop();
      if value.None? {
        break;
      }
      var path := value.value;
      assert path == pending[k];
      ghost var pushed, reported := output.items, diagnostics;
      var outcome := Process(path, c, env);
      match outcome {
        case Ok(record) =>
          output.Push(record);
        case Err(e) =>
          diagnostics := diagnostics + [Diagnostic(path, e)];
      }
      assert output.items == pushed + (if outcome.Ok? then [outcome.value] else []);
      assert diagnostics == reported + (if outcome.Err? then [Diagnostic(path, outcome.error)] else []);
      ProcessedStep(pending, k, c, env);
      k := k + 1;
    }
    assert pending[..k] == pending;
  }

  /** Every path yields exactly one record or exactly one diagnostic. */
  lemma {:induction false} RecordsAndFailuresPartition(paths: seq<string>, c: Configuration, env: Environment)
    ensures |Records(paths, c, env)| + |Failures(paths, c, env)| == |paths|
  {
    if paths != [] {
      RecordsAndFailuresPartition(paths[..|paths| - 1], c, env);
    }
  }

  lemma {:induction false} RecordsConcat(a: seq<string>, b: seq<string>, c: Configuration, env: Environment)
    ensures Records(a + b, c, env) == Records(a, c, env) + Records(b, c, env)
  {
    if b == [] {
      assert a + b == a;
    } else {
      var init := b[..|b| - 1];
      assert (a + b)[..|a + b| - 1] == a + init;
      RecordsConcat(a, init, c, env);
    }
  }

  /** A failing file costs its own record and nothing else: the worker carries on
      with the files after it. */
  lemma FailureIsIsolated(before: seq<string>, path: string, after: seq<string>, c: Configuration, env: Environment)
    requires Process(path, c, env).Err?
    ensures Records(before + [path] + after, c, env) == Records(before, c, env) + Records(after, c, env)
  {
    RecordsConcat(before + [path], after, c, env);
    assert (before + [path])[..|before + [path]| - 1] == before;
    assert Records(before + [path], c, env) == Records(before, c, env);
  }

  /** Two files, the first classified and the second failing: one record for the
      first, one diagnostic naming the second. */
  lemma OneSuccessOneFailure(a: string, b: string, c: Configuration, env: Environment)
    requires Process(a, c, env).Ok? && Process(b, c, env).Err?
    ensures Records([a, b], c, env) == [Process(a, c, env).value]
    ensures Failures([a, b], c, env) == [Diagnostic(b, Process(b, c, env).error)]
  {
    assert [a, b][..1] == [a] && [a][..0] == [];
    assert Records([a], c, env) == [Process(a, c, env).value];
    assert Failures([a], c, env) == [];
  }

  /** A record is emitted exactly for the paths that succeed. */
  lemma {:induction false} RecordsExactly(paths: seq<string>, c: Configuration, env: Environment, r: string)
    ensures r in Records(paths, c, env) <==> exists p :: p in paths && Process(p, c, env) == Ok(r)
  {
    if paths != [] {
      var init := paths[..|paths| - 1];
      RecordsExactly(init, c, env, r);
      assert paths == init + [paths[|paths| - 1]];
      if exists p :: p in paths && Process(p, c, env) == Ok(r) {
        var p :| p in paths && Process(p, c, env) == Ok(r);
        if p != paths[|paths| - 1] {
          assert p in init;
        }
      }
    }
  }

  /** The size limits: an empty file is rejected, a file of exactly
      `max_filesize` bytes is accepted, one byte more is rejected. */
  lemma SizeLimits(path: string, c: Configuration, env: Environment)
    requires env.isRegularFile(path) && env.decodes(path) && env.classify(path, SizeT(c.topK)).Ok?
    ensures env.fileSize(path) == 0 ==> Process(path, c, env) == Err(EmptyFile)
    ensures env.fileSize(path) > c.maxFilesize ==> Process(path, c, env) == Err(FileTooLarge)
    ensures 0 < env.fileSize(path) == c.maxFilesize ==> Process(path, c, env).Ok?
  {}

  // ---------------------------------------------------------------------------
  // thread_print_tsq

  /** Drains a closed queue; what it prints is what was queued, in queue order. */
  method ThreadPrintTsq(q: Queue.TsQueue) returns (printed: seq<string>)
    requires q.closed
    modifies q
    ensures printed == old(q.items)
    ensures q.items == [] && q.closed && q.closeCount == old(q.closeCount)
  {
    printed := [];
    while true
      invariant q.closed && old(q.items) == printed + q.items
      invariant q.closeCount == old(q.closeCount)
      decreases |q.items|
    {
      var value := q.Pop();
      if value.None? {
        break;
      }
      printed := printed + [value.value];
    }
  }
}
