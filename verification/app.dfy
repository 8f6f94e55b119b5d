/** The window of the tool as a state machine: the inputs chosen so far, the output
    folder, the progress bar and the log, and the handlers of its three buttons, of
    a drop, and of the run button. Dialogs and the filesystem are parameters; a
    cancelled dialog is the empty string. */
module NoBackApp {
  import opened Paths
  import opened Collector
  import opened Batch

  datatype Option<T> = None | Some(value: T)

  /** The warnings the run button can pop up instead of starting a run. */
  datatype Warning = NoInputs | NoOutputDir
  {
    /** The text of the warning box. */
    function Message(): string
    {
      match this
      case NoInputs => "Selecione arquivos ou uma pasta primeiro."
      case NoOutputDir => "Selecione a pasta de saída."
    }
  }

  /** An event that is not a log line leaves the log as it was. */
  lemma LogIgnores(events: seq<Event>, e: Event)
    requires !e.Logged?
    ensures LogOf(events + [e]) == LogOf(events)
  {
    ProjectionsAppend(events, [e]);
    ProjectionsSingle(e);
  }

  /** Logging a line appends it to the log. */
  lemma LogAppends(events: seq<Event>, line: LogLine)
    ensures LogOf(events + [Logged(line)]) == LogOf(events) + [line]
  {
    ProjectionsAppend(events, [Logged(line)]);
    ProjectionsSingle(Logged(line));
  }

  class App {
    /** The images the next run will process, in order. */
    var inputPaths: seq<Path>
    /** The folder outputs are written to, once one has been chosen. */
    var outputDir: Option<Path>
    /** The progress bar: its maximum and its current value. */
    var progressMaximum: nat
    var progressValue: nat
    /** The log, one line per call to the append-log helper. */
    var log: seq<LogLine>
    /** Everything the window has observed so far, in order. */
    ghost var events: seq<Event>

    /** The log holds exactly the lines logged among the events. */
    ghost predicate Valid()
      reads this
    {
      log == LogOf(events)
    }

    /** A fresh window: nothing chosen, an empty log, the progress bar at 0 of its
        default maximum 100. */
    constructor ()
      ensures Valid()
      ensures inputPaths == [] && outputDir == None
      ensures progressMaximum == 100 && progressValue == 0
      ensures log == [] && events == []
    {
      inputPaths := [];
      outputDir := None;
      progressMaximum := 100;
      progressValue := 0;
      log := [];
      events := [];
    }

    /** Appends one line to the log. */
    method AppendLog(line: LogLine)
      requires Valid()
      modifies this
      ensures Valid()
      ensures log == old(log) + [line]
      ensures events == old(events) + [Logged(line)]
      ensures inputPaths == old(inputPaths) && outputDir == old(outputDir)
      ensures progressMaximum == old(progressMaximum) && progressValue == old(progressValue)
    {
      LogAppends(events, line);
      log := log + [line];
      events := events + [Logged(line)];
    }

    /** Sets the maximum and the value of the progress bar. */
    method ConfigureProgress(maximum: nat, value: nat)
      requires Valid()
      modifies this
      ensures Valid()
      ensures progressMaximum == maximum && progressValue == value
      ensures events == old(events) + [ProgressSet(maximum, value)]
      ensures log == old(log)
      ensures inputPaths == old(inputPaths) && outputDir == old(outputDir)
    {
      LogIgnores(events, ProgressSet(maximum, value));
      progressMaximum := maximum;
      progressValue := value;
      events := events + [ProgressSet(maximum, value)];
    }

    /** Sets only the value of the progress bar; its maximum stays as it is. */
    method SetProgressValue(value: nat)
      requires Valid()
      modifies this
      ensures Valid()
      ensures progressMaximum == old(progressMaximum) && progressValue == value
      ensures events == old(events) + [ProgressSet(progressMaximum, value)]
      ensures log == old(log)
      ensures inputPaths == old(inputPaths) && outputDir == old(outputDir)
    {
      LogIgnores(events, ProgressSet(progressMaximum, value));
      progressValue := value;
      events := events + [ProgressSet(progressMaximum, value)];
    }

    /** The "select photos" button, `files` being what the file dialog returned:
        a non-empty selection replaces the inputs, unfiltered, and is counted in the
        log; a cancelled dialog changes nothing. */
    method ChooseFiles(files: seq<Path>)
      requires Valid()
      modifies this
      ensures Valid()
      ensures files == [] ==>
        inputPaths == old(inputPaths) && log == old(log) && events == old(events)
      ensures files != [] ==>
        inputPaths == files && log == old(log) + [FilesSelected(|files|)] &&
        events == old(events) + [Logged(FilesSelected(|files|))]
      ensures outputDir == old(outputDir)
      ensures progressMaximum == old(progressMaximum) && progressValue == old(progressValue)
    {
      if files != [] {
        inputPaths := files;
        AppendLog(FilesSelected(|files|));
      }
    }

    /** The "select folder" button, `folder` being what the folder dialog returned:
        a chosen folder replaces the inputs by the images found below it, even when
        none are found, and the count is logged; a cancelled dialog changes
        nothing. */
    method ChooseFolder(fs: FileSystem, folder: Path)
      requires Valid()
      modifies this
      ensures Valid()
      ensures folder == "" ==>
        inputPaths == old(inputPaths) && log == old(log) && events == old(events)
      ensures folder != "" ==>
        inputPaths == ImagesInDir(fs, folder) &&
        log == old(log) + [FolderScanned(|ImagesInDir(fs, folder)|)] &&
        events == old(events) + [Logged(FolderScanned(|ImagesInDir(fs, folder)|))]
      ensures forall i :: 0 <= i < |inputPaths| && folder != "" ==> Eligible(inputPaths[i])
      ensures outputDir == old(outputDir)
      ensures progressMaximum == old(progressMaximum) && progressValue == old(progressValue)
    {
      if folder != "" {
        inputPaths := ImagesInDir(fs, folder);
        AppendLog(FolderScanned(|inputPaths|));
      }
    }

    /** The "select output" button: a chosen folder becomes the output folder and is
        logged; a cancelled dialog changes nothing. */
    method ChooseOutput(folder: Path)
      requires Valid()
      modifies this
      ensures Valid()
      ensures folder == "" ==>
        outputDir == old(outputDir) && log == old(log) && events == old(events)
      ensures folder != "" ==>
        outputDir == Some(folder) && log == old(log) + [OutputChosen(folder)] &&
        events == old(events) + [Logged(OutputChosen(folder))]
      ensures inputPaths == old(inputPaths)
      ensures progressMaximum == old(progressMaximum) && progressValue == old(progressValue)
    {
      if folder != "" {
        outputDir := Some(folder);
        AppendLog(OutputChosen(folder));
      }
    }

    /** A drop of `payload` (the dropped paths, already split): when the payload
        yields at least one image, those images replace the inputs and their count
        is logged; otherwise nothing changes, so a drop of nothing usable keeps the
        previous selection. */
    method OnDrop(fs: FileSystem, payload: seq<Path>)
      requires Valid()
      modifies this
      ensures Valid()
      ensures Dropped(fs, payload) == [] ==>
        inputPaths == old(inputPaths) && log == old(log) && events == old(events)
      ensures Dropped(fs, payload) != [] ==>
        inputPaths == Dropped(fs, payload) &&
        log == old(log) + [FilesDropped(|Dropped(fs, payload)|)] &&
        events == old(events) + [Logged(FilesDropped(|Dropped(fs, payload)|))]
      ensures outputDir == old(outputDir)
      ensures progressMaximum == old(progressMaximum) && progressValue == old(progressValue)
    {
      var allFiles := CollectDropped(fs, payload);
      if allFiles != [] {
        inputPaths := allFiles;
        AppendLog(FilesDropped(|allFiles|));
      }
    }

    /** One turn of the run loop: the transform is attempted on input `f`, its
        success line (input name and output name) or failure line (input name and
        error message) is logged, and the progress bar's value is set to
        `position`, its maximum kept. */
    method ProcessItem(convert: Converter, f: Path, out: Path, position: nat)
      requires Valid()
      modifies this
      ensures Valid()
      ensures events == old(events) +
        [Attempted(f, out), Logged(ItemLine(convert, f, out)), ProgressSet(old(progressMaximum), position)]
      ensures log == old(log) + [ItemLine(convert, f, out)]
      ensures progressMaximum == old(progressMaximum) && progressValue == position
      ensures inputPaths == old(inputPaths) && outputDir == old(outputDir)
    {
      LogIgnores(events, Attempted(f, out));
      events := events + [Attempted(f, out)];
      var result := ProcessImage(convert, f, out);
      var line;
      match result {
        case Saved(o) =>
          line := ItemSaved(f, o);
        case Error(e) =>
          line := ItemFailed(f, e);
      }
      AppendLog(line);
      SetProgressValue(position);
    }

    /** The run button. Without inputs, or without an output folder (checked in that
        order), it returns the warning to show and changes nothing. Otherwise it
        runs the whole batch: the progress bar is set to 0 of N and the start line
        logged; each input in turn is attempted, its success or failure logged, and
        the bar advanced to its position, a failure never stopping the run; and the
        closing line is logged. The inputs and the output folder are kept, so the
        same batch can be run again. */
    method Process(convert: Converter) returns (warning: Option<Warning>)
      requires Valid()
      modifies this
      ensures Valid()
      ensures warning == Some(NoInputs) <==> old(inputPaths) == []
      ensures warning == Some(NoOutputDir) <==> old(inputPaths) != [] && old(outputDir) == None
      ensures warning != None ==>
        log == old(log) && events == old(events) &&
        progressMaximum == old(progressMaximum) && progressValue == old(progressValue)
      ensures warning == None ==>
        old(outputDir).Some? &&
        events == old(events) + RunEvents(convert, old(inputPaths), old(outputDir).value) &&
        log == old(log) + [RunStarted(|old(inputPaths)|)] +
          ItemLines(convert, old(inputPaths), old(outputDir).value) + [RunFinished] &&
        progressMaximum == progressValue == |old(inputPaths)|
      ensures warning == None ==>
        AttemptsOf(events) == AttemptsOf(old(events)) + old(inputPaths) &&
        |log| == |old(log)| + |old(inputPaths)| + 2
      ensures warning != None ==> AttemptsOf(events) == AttemptsOf(old(events))
      ensures inputPaths == old(inputPaths) && outputDir == old(outputDir)
    {
      if inputPaths == [] {
        return Some(NoInputs);
      }
      if outputDir == None {
        return Some(NoOutputDir);
      }
      warning := None;
      ghost var start := events;
      RunBatch(convert, inputPaths, outputDir.value);
      ProjectionsAppend(start, RunEvents(convert, inputPaths, outputDir.value));
      RunAttemptsEachItemOnce(convert, inputPaths, outputDir.value);
    }

    /** A run over `items` writing to `out`, once both checks have passed. */
    method RunBatch(convert: Converter, items: seq<Path>, out: Path)
      requires Valid()
      requires inputPaths == items && outputDir == Some(out)
      modifies this
      ensures Valid()
      ensures events == old(events) + RunEvents(convert, items, out)
      ensures log == old(log) + [RunStarted(|items|)] + ItemLines(convert, items, out) + [RunFinished]
      ensures progressMaximum == progressValue == |items|
      ensures inputPaths == items && outputDir == Some(out)
    {
      var n := |items|;
      ghost var start := events;
      ghost var head := [ProgressSet(n, 0), Logged(RunStarted(n))];
      ConfigureProgress(n, 0);
      AppendLog(RunStarted(n));
      PairStep(start, head[0], head[1]);
      assert events == start + head;
      ghost var body := RunItems(convert, items, out);
      assert events == start + head + body;
      AppendLog(RunFinished);
      assert events == start + head + body + [Logged(RunFinished)];
      RunEventsShape(convert, items, out);
      ghost var run := RunEvents(convert, items, out);
      assert run == head + body + [Logged(RunFinished)];
      AssociateStep(start, head + body, [Logged(RunFinished)]);
      AssociateStep(start, head, body);
      assert events == start + run;
      ghost var lines := ItemLines(convert, items, out);
      RunLogLines(convert, items, out);
      ProjectionsAppend(start, run);
      assert log == LogOf(start) + ([RunStarted(n)] + lines + [RunFinished]);
      AssociateStep(LogOf(start), [RunStarted(n)] + lines, [RunFinished]);
      AssociateStep(LogOf(start), [RunStarted(n)], lines);
    }

    /** The loop of a run: every item in order, each with its attempt, its line and
        its progress update; `body` is what the loop adds to the events. */
    method RunItems(convert: Converter, items: seq<Path>, out: Path) returns (ghost body: seq<Event>)
      requires Valid()
      requires inputPaths == items && outputDir == Some(out)
      requires progressMaximum == |items| && progressValue == 0
      modifies this
      ensures Valid()
      ensures body == ItemEvents(items, ItemLines(convert, items, out), out, |items|)
      ensures events == old(events) + body
      ensures progressMaximum == progressValue == |items|
      ensures inputPaths == items && outputDir == Some(out)
    {
      var n := |items|;
      ghost var lines := ItemLines(convert, items, out);
      ghost var start := events;
      var idx := 0;
      while idx < n
        invariant 0 <= idx <= n
        invariant Valid()
        invariant events == start + ItemEvents(items, lines, out, idx)
        invariant inputPaths == items && outputDir == Some(out)
        invariant progressMaximum == n && progressValue == idx
      {
        ghost var step := [Attempted(items[idx], out), Logged(ItemLine(convert, items[idx], out)),
          ProgressSet(n, idx + 1)];
        ProcessItem(convert, items[idx], out, idx + 1);
        ItemEventsStep(convert, items, lines, out, idx);
        AssociateStep(start, ItemEvents(items, lines, out, idx), step);
        idx := idx + 1;
      }
      body := ItemEvents(items, lines, out, n);
    }
  }

  /** One more item adds its three events to the item events of a run. */
  lemma ItemEventsStep(convert: Converter, items: seq<Path>, lines: seq<LogLine>, out: Path, k: nat)
    requires k < |items|
    requires lines == ItemLines(convert, items, out)
    ensures ItemEvents(items, lines, out, k + 1) == ItemEvents(items, lines, out, k) +
      [Attempted(items[k], out), Logged(ItemLine(convert, items[k], out)), ProgressSet(|items|, k + 1)]
  {
    ItemLinesAt(convert, items, out, k);
  }

  // A sequence identity, stated only to hand the verifier this rewriting step.
  lemma PairStep<T>(a: seq<T>, x: T, y: T)
    ensures a + [x] + [y] == a + [x, y]
  {
  }

  // Associativity of concatenation, stated only to hand the verifier this step.
  lemma AssociateStep<T>(a: seq<T>, b: seq<T>, c: seq<T>)
    ensures a + b + c == a + (b + c)
  {
  }
}
