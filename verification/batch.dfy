/** One batch run: the per-item step (background removal and save), the log lines
    the window shows, and the order in which a run touches the log, the progress
    bar and the transform. */
module Batch {
  import opened Paths

  /** What the background-removal step does for one input: the output is written,
      or an exception is raised with a message. */
  datatype Outcome = Converted | Raised(message: string)

  /** The background-removal step as an oracle: for an input and an output
      directory, whether creating the directory, opening and converting the image,
      removing its background and saving the PNG all succeed. */
  type Converter = (Path, Path) -> Outcome

  /** The result of processing one image: the path written, or the error text. */
  datatype ImageResult = Saved(output: Path) | Error(message: string)

  /** Processing one input: when the transform succeeds, the result is the path
      the output was written to, `OutPath(outDir, input)`; when it raises, the
      result carries the exception's message. */
  function ProcessImage(convert: Converter, input: Path, outDir: Path): (r: ImageResult)
    ensures r.Saved? <==> convert(input, outDir).Converted?
    ensures r.Saved? ==> r.output == OutPath(outDir, input)
    ensures r.Error? ==> r.message == convert(input, outDir).message
  {
    match convert(input, outDir)
    case Converted => Saved(OutPath(outDir, input))
    case Raised(m) => Error(m)
  }

  /** A successful step writes directly into `outDir` (the folder, at most one
      separator, then the file name) a `.png` file named after the input's stem
      followed by `_nobg.png`, whatever the input's extension and its case. */
  lemma ProcessImageNaming(convert: Converter, input: Path, outDir: Path)
    requires convert(input, outDir).Converted?
    ensures ProcessImage(convert, input, outDir).Saved?
    ensures |outDir| <= |ProcessImage(convert, input, outDir).output|
    ensures ProcessImage(convert, input, outDir).output[..|outDir|] == outDir
    ensures |ProcessImage(convert, input, outDir).output| <=
      |outDir| + 1 + |Name(ProcessImage(convert, input, outDir).output)|
    ensures (ProcessImage(convert, input, outDir).output[|outDir|..] ==
      Name(ProcessImage(convert, input, outDir).output)) <==> outDir == "" || outDir[|outDir| - 1] == '/'
    ensures Name(ProcessImage(convert, input, outDir).output) == Stem(Name(input)) + "_nobg.png"
    ensures Suffix(Name(ProcessImage(convert, input, outDir).output)) == ".png"
  {
    OutPathNaming(outDir, input);
  }

  /** The lines the tool writes to its log. */
  datatype LogLine =
    | FilesSelected(count: nat)
    | FolderScanned(count: nat)
    | OutputChosen(dir: Path)
    | FilesDropped(count: nat)
    | RunStarted(count: nat)
    | ItemSaved(input: Path, output: Path)
    | ItemFailed(input: Path, error: string)
    | RunFinished
  {
    /** The text of the line as the window shows it. */
    function Text(): string
    {
      match this
      case FilesSelected(n) => Decimal(n) + " arquivo(s) selecionado(s)."
      case FolderScanned(n) => Decimal(n) + " arquivo(s) encontrados na pasta."
      case OutputChosen(d) => "Pasta de saída: " + d
      case FilesDropped(n) => Decimal(n) + " arquivo(s) carregados por arrastar e soltar."
      case RunStarted(n) => "Iniciando processamento de " + Decimal(n) + " arquivos..."
      case ItemSaved(i, o) => "✓ " + Name(i) + " → " + Name(o)
      case ItemFailed(i, e) => "✗ Erro em " + Name(i) + ": " + e
      case RunFinished => "\U{1F389} Concluído!"
    }
  }

  /** The decimal digits of a natural number, as Python formats an int. */
  function Decimal(n: nat): (r: string)
    ensures r != []
    ensures forall i :: 0 <= i < |r| ==> '0' <= r[i] <= '9'
  {
    if n < 10 then [Digit(n)] else Decimal(n / 10) + [Digit(n % 10)]
  }

  function Digit(d: nat): (c: char)
    requires d < 10
    ensures '0' <= c <= '9'
  {
    ('0' as int + d) as char
  }

  /** The number a string of decimal digits denotes. */
  function DecimalValue(s: string): nat
    requires forall i :: 0 <= i < |s| ==> '0' <= s[i] <= '9'
    decreases |s|
  {
    if s == [] then 0
    else DecimalValue(s[..|s| - 1]) * 10 + (s[|s| - 1] as int - '0' as int)
  }

  /** The digits written for a count denote that count, and a count of two or more
      digits does not start with '0'. */
  lemma {:induction false} DecimalRoundTrip(n: nat)
    ensures DecimalValue(Decimal(n)) == n
    ensures |Decimal(n)| > 1 ==> Decimal(n)[0] != '0'
    decreases n
  {
    if n >= 10 {
      DecimalRoundTrip(n / 10);
      var d := Decimal(n);
      assert d[..|d| - 1] == Decimal(n / 10);
    }
  }

  /** The log line written for one item: the input and, on success, the file
      written, or on failure the exception's message. */
  function ItemLine(convert: Converter, input: Path, outDir: Path): LogLine
  {
    match ProcessImage(convert, input, outDir)
    case Saved(out) => ItemSaved(input, out)
    case Error(e) => ItemFailed(input, e)
  }

  /** The line of an item is about that input, reports success exactly when the
      transform succeeded, names the file `<stem>_nobg.png` in the output folder on
      success, and carries the exception's message on failure. */
  lemma ItemLineReports(convert: Converter, input: Path, outDir: Path)
    ensures ItemLine(convert, input, outDir).ItemSaved? || ItemLine(convert, input, outDir).ItemFailed?
    ensures ItemLine(convert, input, outDir).input == input
    ensures ItemLine(convert, input, outDir).ItemSaved? <==> convert(input, outDir).Converted?
    ensures ItemLine(convert, input, outDir).ItemSaved? ==>
      Name(ItemLine(convert, input, outDir).output) == Stem(Name(input)) + "_nobg.png"
    ensures ItemLine(convert, input, outDir).ItemFailed? ==>
      ItemLine(convert, input, outDir).error == convert(input, outDir).message
  {
    if convert(input, outDir).Converted? {
      ProcessImageNaming(convert, input, outDir);
    }
  }

  /** The text shown for a successful item: a check mark, the input's name, an
      arrow, and the input's stem followed by `_nobg.png`. */
  lemma SavedLineText(convert: Converter, input: Path, outDir: Path)
    requires convert(input, outDir).Converted?
    ensures ItemLine(convert, input, outDir).Text() ==
      "✓ " + Name(input) + " → " + Stem(Name(input)) + "_nobg.png"
  {
    ProcessImageNaming(convert, input, outDir);
  }

  /** What the window observes, in order: a line appended to the log, the progress
      bar reconfigured, or the transform attempted on an input. */
  datatype Event =
    | Logged(line: LogLine)
    | ProgressSet(maximum: nat, value: nat)
    | Attempted(input: Path, outDir: Path)

  /** The events of the first `k` items of a run over `items`, item i logging
      `lines[i]`: for each item, the attempt, its log line, and the progress bar set
      to its 1-based position out of the number of items. */
  function ItemEvents(items: seq<Path>, lines: seq<LogLine>, outDir: Path, k: nat): seq<Event>
    requires k <= |items| == |lines|
    decreases k
  {
    if k == 0 then []
    else
      ItemEvents(items, lines, outDir, k - 1) +
      [Attempted(items[k - 1], outDir), Logged(lines[k - 1]), ProgressSet(|items|, k)]
  }

  /** The per-item lines of a run, in item order. */
  function ItemLines(convert: Converter, items: seq<Path>, outDir: Path): (r: seq<LogLine>)
    ensures |r| == |items|
    decreases |items|
  {
    if items == [] then []
    else
      ItemLines(convert, items[..|items| - 1], outDir) +
      [ItemLine(convert, items[|items| - 1], outDir)]
  }

  /** Item i's line sits at position i of the per-item lines. */
  lemma {:induction false} ItemLinesAt(convert: Converter, items: seq<Path>, outDir: Path, i: nat)
    requires i < |items|
    ensures ItemLines(convert, items, outDir)[i] == ItemLine(convert, items[i], outDir)
    decreases |items|
  {
    if i < |items| - 1 {
      var init := items[..|items| - 1];
      ItemLinesAt(convert, init, outDir, i);
      assert init[i] == items[i];
    }
  }

  /** The events of a whole run whose items log `lines`: the progress bar reset to
      0 of N, the start line, every item in order, and the closing line. */
  function RunEventsOf(items: seq<Path>, lines: seq<LogLine>, outDir: Path): seq<Event>
    requires |items| == |lines|
  {
    [ProgressSet(|items|, 0), Logged(RunStarted(|items|))] +
    ItemEvents(items, lines, outDir, |items|) +
    [Logged(RunFinished)]
  }

  /** The events of a whole run of the transform `convert` over `items`. */
  function RunEvents(convert: Converter, items: seq<Path>, outDir: Path): seq<Event>
  {
    RunEventsOf(items, ItemLines(convert, items, outDir), outDir)
  }

  // An unfolding of RunEvents, stated only to hand the verifier this step.
  lemma RunEventsShape(convert: Converter, items: seq<Path>, out: Path)
    ensures RunEvents(convert, items, out) ==
      [ProgressSet(|items|, 0), Logged(RunStarted(|items|))] +
      ItemEvents(items, ItemLines(convert, items, out), out, |items|) + [Logged(RunFinished)]
  {
  }

  /** The log lines among some events, in order. */
  function LogOf(events: seq<Event>): seq<LogLine>
    decreases |events|
  {
    if events == [] then []
    else
      var last := events[|events| - 1];
      LogOf(events[..|events| - 1]) + (if last.Logged? then [last.line] else [])
  }

  /** The inputs attempted among some events, in order. */
  function AttemptsOf(events: seq<Event>): seq<Path>
    decreases |events|
  {
    if events == [] then []
    else
      var last := events[|events| - 1];
      AttemptsOf(events[..|events| - 1]) + (if last.Attempted? then [last.input] else [])
  }

  /** The values the progress bar is set to among some events, in order. */
  function ProgressOf(events: seq<Event>): seq<nat>
    decreases |events|
  {
    if events == [] then []
    else
      var last := events[|events| - 1];
      ProgressOf(events[..|events| - 1]) + (if last.ProgressSet? then [last.value] else [])
  }

  /** The `k` consecutive numbers from `lo`: lo, lo + 1, ..., lo + k - 1. */
  function Counting(lo: nat, k: nat): seq<nat>
    decreases k
  {
    if k == 0 then [] else Counting(lo, k - 1) + [lo + k - 1]
  }

  /** `Counting(lo, k)` has `k` entries and entry `i` is `lo + i`. */
  lemma {:induction false} CountingAt(lo: nat, k: nat)
    ensures |Counting(lo, k)| == k
    ensures forall i :: 0 <= i < k ==> Counting(lo, k)[i] == lo + i
    decreases k
  {
    if k > 0 {
      CountingAt(lo, k - 1);
    }
  }

  /** Counting from `lo` starts with `lo` and goes on counting from `lo + 1`. */
  lemma {:induction false} CountingFirst(lo: nat, k: nat)
    ensures Counting(lo, k + 1) == [lo] + Counting(lo + 1, k)
    decreases k
  {
    if k > 0 {
      CountingFirst(lo, k - 1);
    }
  }

  /** Projections of a concatenation are the concatenations of the projections. */
  lemma ProjectionsAppend(a: seq<Event>, b: seq<Event>)
    ensures LogOf(a + b) == LogOf(a) + LogOf(b)
    ensures AttemptsOf(a + b) == AttemptsOf(a) + AttemptsOf(b)
    ensures ProgressOf(a + b) == ProgressOf(a) + ProgressOf(b)
  {
    LogOfAppend(a, b);
    AttemptsOfAppend(a, b);
    ProgressOfAppend(a, b);
  }

  lemma {:induction false} LogOfAppend(a: seq<Event>, b: seq<Event>)
    ensures LogOf(a + b) == LogOf(a) + LogOf(b)
    decreases |b|
  {
    if b == [] {
      assert a + b == a;
    } else {
      var b', x := b[..|b| - 1], b[|b| - 1];
      var ab := a + b;
      assert ab[..|ab| - 1] == a + b';
      assert ab[|ab| - 1] == x;
      LogOfAppend(a, b');
      var t: seq<LogLine> := if x.Logged? then [x.line] else [];
      assert LogOf(ab) == LogOf(a + b') + t;
      assert LogOf(b) == LogOf(b') + t;
      assert LogOf(a) + LogOf(b') + t == LogOf(a) + (LogOf(b') + t);
    }
  }

  lemma {:induction false} AttemptsOfAppend(a: seq<Event>, b: seq<Event>)
    ensures AttemptsOf(a + b) == AttemptsOf(a) + AttemptsOf(b)
    decreases |b|
  {
    if b == [] {
      assert a + b == a;
    } else {
      var b', x := b[..|b| - 1], b[|b| - 1];
      var ab := a + b;
      assert ab[..|ab| - 1] == a + b';
      assert ab[|ab| - 1] == x;
      AttemptsOfAppend(a, b');
      var t: seq<Path> := if x.Attempted? then [x.input] else [];
      assert AttemptsOf(ab) == AttemptsOf(a + b') + t;
      assert AttemptsOf(b) == AttemptsOf(b') + t;
      assert AttemptsOf(a) + AttemptsOf(b') + t == AttemptsOf(a) + (AttemptsOf(b') + t);
    }
  }

  lemma {:induction false} ProgressOfAppend(a: seq<Event>, b: seq<Event>)
    ensures ProgressOf(a + b) == ProgressOf(a) + ProgressOf(b)
    decreases |b|
  {
    if b == [] {
      assert a + b == a;
    } else {
      var b', x := b[..|b| - 1], b[|b| - 1];
      var ab := a + b;
      assert ab[..|ab| - 1] == a + b';
      assert ab[|ab| - 1] == x;
      ProgressOfAppend(a, b');
      var t: seq<nat> := if x.ProgressSet? then [x.value] else [];
      assert ProgressOf(ab) == ProgressOf(a + b') + t;
      assert ProgressOf(b) == ProgressOf(b') + t;
      assert ProgressOf(a) + ProgressOf(b') + t == ProgressOf(a) + (ProgressOf(b') + t);
    }
  }

  /** The projections of a single event. */
  lemma ProjectionsSingle(e: Event)
    ensures LogOf([e]) == if e.Logged? then [e.line] else []
    ensures AttemptsOf([e]) == if e.Attempted? then [e.input] else []
    ensures ProgressOf([e]) == if e.ProgressSet? then [e.value] else []
  {
    assert [e][..0] == [];
  }

  /** The projections of one item's three events. */
  lemma ItemStepProjections(f: Path, outDir: Path, line: LogLine, n: nat, k: nat)
    ensures AttemptsOf([Attempted(f, outDir), Logged(line), ProgressSet(n, k)]) == [f]
    ensures LogOf([Attempted(f, outDir), Logged(line), ProgressSet(n, k)]) == [line]
    ensures ProgressOf([Attempted(f, outDir), Logged(line), ProgressSet(n, k)]) == [k]
  {
    var step := [Attempted(f, outDir), Logged(line), ProgressSet(n, k)];
    ProjectionsAppend([step[0]], [step[1], step[2]]);
    ProjectionsAppend([step[1]], [step[2]]);
    assert step == [step[0]] + ([step[1]] + [step[2]]);
    assert [step[1], step[2]] == [step[1]] + [step[2]];
    ProjectionsSingle(step[0]);
    ProjectionsSingle(step[1]);
    ProjectionsSingle(step[2]);
  }

  /** The events of the first k items, projected: the first k items attempted in
      order, their k lines in order, and the progress values 1, 2, ..., k. */
  lemma {:induction false} ItemEventsProjections(items: seq<Path>, lines: seq<LogLine>, outDir: Path, k: nat)
    requires k <= |items| == |lines|
    ensures AttemptsOf(ItemEvents(items, lines, outDir, k)) == items[..k]
    ensures LogOf(ItemEvents(items, lines, outDir, k)) == lines[..k]
    ensures ProgressOf(ItemEvents(items, lines, outDir, k)) == Counting(1, k)
    decreases k
  {
    if k > 0 {
      ItemEventsProjections(items, lines, outDir, k - 1);
      var step := [Attempted(items[k - 1], outDir), Logged(lines[k - 1]), ProgressSet(|items|, k)];
      ProjectionsAppend(ItemEvents(items, lines, outDir, k - 1), step);
      ItemStepProjections(items[k - 1], outDir, lines[k - 1], |items|, k);
      assert items[..k] == items[..k - 1] + [items[k - 1]];
      assert lines[..k] == lines[..k - 1] + [lines[k - 1]];
    }
  }

  /** Each item attempted exactly once, in list order, whether or not any of them
      fails. */
  lemma RunAttemptsEachItemOnce(convert: Converter, items: seq<Path>, outDir: Path)
    ensures AttemptsOf(RunEvents(convert, items, outDir)) == items
  {
    RunEventsProjections(items, ItemLines(convert, items, outDir), outDir);
  }

  /** A run of N items logs N + 2 lines: the start line, the line of each item in
      input order, and the closing line. */
  lemma RunLogLines(convert: Converter, items: seq<Path>, outDir: Path)
    ensures LogOf(RunEvents(convert, items, outDir)) ==
      [RunStarted(|items|)] + ItemLines(convert, items, outDir) + [RunFinished]
    ensures |LogOf(RunEvents(convert, items, outDir))| == |items| + 2
  {
    RunEventsProjections(items, ItemLines(convert, items, outDir), outDir);
  }

  /** The progress bar of a run is set to 0, 1, ..., N in that order, always out of
      N: strictly increasing and ending at its maximum, however many items fail. */
  lemma RunProgressCounts(convert: Converter, items: seq<Path>, outDir: Path)
    ensures |ProgressOf(RunEvents(convert, items, outDir))| == |items| + 1
    ensures forall i :: 0 <= i <= |items| ==> ProgressOf(RunEvents(convert, items, outDir))[i] == i
    ensures forall i :: (0 <= i < |RunEvents(convert, items, outDir)| &&
      RunEvents(convert, items, outDir)[i].ProgressSet?) ==>
      RunEvents(convert, items, outDir)[i].maximum == |items|
  {
    var lines := ItemLines(convert, items, outDir);
    RunEventsProjections(items, lines, outDir);
    RunEventsMaximum(items, lines, outDir);
    CountingAt(0, |items| + 1);
  }

  /** Every progress update of a run is out of the number of items. */
  lemma RunEventsMaximum(items: seq<Path>, lines: seq<LogLine>, outDir: Path)
    requires |items| == |lines|
    ensures forall i :: (0 <= i < |RunEventsOf(items, lines, outDir)| &&
      RunEventsOf(items, lines, outDir)[i].ProgressSet?) ==>
      RunEventsOf(items, lines, outDir)[i].maximum == |items|
  {
    var n := |items|;
    var head := [ProgressSet(n, 0), Logged(RunStarted(n))];
    var body := ItemEvents(items, lines, outDir, n);
    var all := RunEventsOf(items, lines, outDir);
    ItemEventsMaximum(items, lines, outDir, n);
    forall i | 0 <= i < |all| && all[i].ProgressSet? ensures all[i].maximum == n {
      if 2 <= i < 2 + |body| {
        assert all[i] == body[i - 2];
      }
    }
  }

  lemma {:induction false} ItemEventsMaximum(items: seq<Path>, lines: seq<LogLine>, outDir: Path, k: nat)
    requires k <= |items| == |lines|
    ensures forall i :: (0 <= i < |ItemEvents(items, lines, outDir, k)| &&
      ItemEvents(items, lines, outDir, k)[i].ProgressSet?) ==>
      ItemEvents(items, lines, outDir, k)[i].maximum == |items|
    decreases k
  {
    if k > 0 {
      ItemEventsMaximum(items, lines, outDir, k - 1);
    }
  }

  /** A run's events projected: every item attempted once in order; the start line,
      the item lines in order and the closing line; progress 0, 1, ..., N. */
  lemma RunEventsProjections(items: seq<Path>, lines: seq<LogLine>, outDir: Path)
    requires |items| == |lines|
    ensures AttemptsOf(RunEventsOf(items, lines, outDir)) == items
    ensures LogOf(RunEventsOf(items, lines, outDir)) == [RunStarted(|items|)] + lines + [RunFinished]
    ensures ProgressOf(RunEventsOf(items, lines, outDir)) == Counting(0, |items| + 1)
  {
    var n := |items|;
    var head := [ProgressSet(n, 0), Logged(RunStarted(n))];
    var body := ItemEvents(items, lines, outDir, n);
    var tail := [Logged(RunFinished)];
    assert RunEventsOf(items, lines, outDir) == head + body + tail;
    ProjectionsAppend(head + body, tail);
    ProjectionsAppend(head, body);
    HeadProjections(n);
    ProjectionsSingle(tail[0]);
    ItemEventsProjections(items, lines, outDir, n);
    RunAttemptsStep(items, AttemptsOf(body));
    RunLogStep(n, lines, LogOf(body));
    RunProgressStep(n, ProgressOf(body));
  }

  // A sequence identity, stated only to hand the verifier this rewriting step.
  lemma RunAttemptsStep(items: seq<Path>, a: seq<Path>)
    requires a == items[..|items|]
    ensures [] + a + [] == items
  {
  }

  // A sequence identity, stated only to hand the verifier this rewriting step.
  lemma RunLogStep(n: nat, lines: seq<LogLine>, l: seq<LogLine>)
    requires n == |lines| && l == lines[..n]
    ensures [RunStarted(n)] + l + [RunFinished] == [RunStarted(n)] + lines + [RunFinished]
  {
    assert l == lines;
  }

  lemma RunProgressStep(n: nat, p: seq<nat>)
    requires p == Counting(1, n)
    ensures [0] + p + [] == Counting(0, n + 1)
  {
    CountingFirst(0, n);
  }

  /** The projections of the two events that open a run. */
  lemma HeadProjections(n: nat)
    ensures AttemptsOf([ProgressSet(n, 0), Logged(RunStarted(n))]) == []
    ensures LogOf([ProgressSet(n, 0), Logged(RunStarted(n))]) == [RunStarted(n)]
    ensures ProgressOf([ProgressSet(n, 0), Logged(RunStarted(n))]) == [0]
  {
    var head := [ProgressSet(n, 0), Logged(RunStarted(n))];
    ProjectionsAppend([head[0]], [head[1]]);
    assert head == [head[0]] + [head[1]];
    ProjectionsSingle(head[0]);
    ProjectionsSingle(head[1]);
  }

  /** The events of item j sit together, at positions 3j to 3j + 2 of the item
      events: its attempt, then its log line, then the progress bar set to j + 1.
      So the line and progress update of item j come before anything of item j + 1. */
  lemma {:induction false} ItemEventsAt(items: seq<Path>, lines: seq<LogLine>, outDir: Path, k: nat, j: nat)
    requires j < k <= |items| == |lines|
    ensures |ItemEvents(items, lines, outDir, k)| == 3 * k
    ensures ItemEvents(items, lines, outDir, k)[3 * j] == Attempted(items[j], outDir)
    ensures ItemEvents(items, lines, outDir, k)[3 * j + 1] == Logged(lines[j])
    ensures ItemEvents(items, lines, outDir, k)[3 * j + 2] == ProgressSet(|items|, j + 1)
    decreases k
  {
    ItemEventsLength(items, lines, outDir, k - 1);
    if j < k - 1 {
      ItemEventsAt(items, lines, outDir, k - 1, j);
    }
  }

  lemma {:induction false} ItemEventsLength(items: seq<Path>, lines: seq<LogLine>, outDir: Path, k: nat)
    requires k <= |items| == |lines|
    ensures |ItemEvents(items, lines, outDir, k)| == 3 * k
    decreases k
  {
    if k > 0 {
      ItemEventsLength(items, lines, outDir, k - 1);
    }
  }
}
