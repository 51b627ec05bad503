/** The two per-file readers of the tail command
    (cli/dcoscli/tail/main.py): `_read_last_lines`, which fetches a
    window from the end of the file big enough for the requested number
    of lines, and `_read_rest`, which reads everything since the cursor.

    As written, `_read_last_lines` widens its window by recomputing
    `start` from the same `fetch_size`, so after the first pass every
    pass reads nothing and the loop spins for ever whenever the first
    window was not enough. `ReadLastLines` reproduces that loop under a
    `fuel` bound: it returns `None` exactly when the source would still
    be looping once the fuel is spent. `ReadLastLinesWidening` is the
    loop with the window really widened. */
module TailRead {
  import opened Util
  import opened Lines
  import opened RemoteFile

  /** `LINE_SIZE`, the estimated bytes per line. */
  const LINE_SIZE: int := 200

  /** The first window's start: `max(file_size - LINE_SIZE * n, 0)`. */
  function WindowStart(content: string, n: int): int
  {
    Max(|content| - LINE_SIZE * n, 0)
  }

  /** The data the first pass reads: `end - start` bytes from `start`. */
  function FirstWindow(content: string, n: int): string
  {
    var start := WindowStart(content, n);
    ReadSpec(content, start, Some(|content| - start))
  }

  /** The lines of the first window, after the trailing-newline strip. */
  function WindowLines(content: string, n: int): seq<string>
  {
    Split(StripTrailingNewline(FirstWindow(content, n)))
  }

  /** Whether `_read_last_lines` ever returns: only when the first
      window already reaches the start of the file, or already holds
      more than `n` lines. */
  predicate Terminates(content: string, n: int)
  {
    WindowStart(content, n) == 0 || |WindowLines(content, n)| > n
  }

  /** What `_read_last_lines` returns when it does. */
  function LastLinesResult(content: string, n: int): seq<string>
  {
    KeepLast(WindowLines(content, n), n)
  }

  /** `_read_last_lines(num_lines, mesos_file)`, as written, with the
      `while True` loop cut off after `fuel` passes. */
  method ReadLastLines(numLines: int, file: MesosFile, fuel: nat) returns (r: Option<seq<string>>)
    modifies file
    ensures r.Some? <==> fuel >= 1 && Terminates(file.endpoint.content, numLines)
    ensures r.Some? ==> r.value == LastLinesResult(file.endpoint.content, numLines)
    ensures r.Some? ==> file.cursor == |file.endpoint.content|
  {
    ghost var content := file.endpoint.content;
    var fileSize := file.Size();
    var fetchSize := LINE_SIZE * numLines;
    var end := fileSize;
    var start := Max(fileSize - fetchSize, 0);
    var data := "";
    var passes: nat := 0;
    r := None;
    while passes < fuel
      invariant passes <= fuel && r.None?
      invariant fileSize == |content| && start == WindowStart(content, numLines)
      invariant passes == 0 ==> end == fileSize && data == ""
      invariant passes > 0 ==> end == start && data == FirstWindow(content, numLines)
      invariant passes > 0 ==> !Terminates(content, numLines)
    {
      var chunk := WindowPass(file, start, end);
      assert chunk + data == FirstWindow(content, numLines);
      data := chunk + data;
      var lines := Split(StripTrailingNewline(data));
      if |lines| > numLines {
        r := Some(PySliceFrom(lines, -numLines));
        break;
      } else if start == 0 {
        r := Some(lines);
        break;
      }
      end := start;
      start := Max(fileSize - fetchSize, 0);
      passes := passes + 1;
    }
    if r.Some? {
      file.Seek(fileSize, SEEK_SET);
    }
  }

  /** One pass of the loop: `seek(start)` then `read(end - start)`.
      The widening step as written sets `end = start` and recomputes
      `start` from the unchanged `fetch_size`, so every pass after the
      first has `end == start`: it asks for nothing, receives nothing,
      sends no request and leaves the cursor at `start`. */
  method WindowPass(file: MesosFile, start: int, end: int) returns (chunk: string)
    modifies file`cursor, file`exchanges
    ensures chunk == ReadSpec(file.endpoint.content, start, Some(end - start))
    ensures file.cursor == start + |chunk|
    ensures end == start ==> chunk == "" && file.cursor == start && file.exchanges == old(file.exchanges)
  {
    file.Seek(start, SEEK_SET);
    chunk := file.Read(Some(end - start));
  }

  /** A file bigger than the window whose last window holds at most `n`
      lines makes the source loop for ever: for instance any file with
      no newline that is longer than `LINE_SIZE * n` bytes. */
  lemma {:induction false} LongLineDiverges(content: string, n: int)
    requires n >= 1 && |content| > LINE_SIZE * n && '\n' !in content
    ensures !Terminates(content, n)
  {
    var start := WindowStart(content, n);
    var w := FirstWindow(content, n);
    assert w == content[start..];
    assert '\n' !in w by {
      forall i | 0 <= i < |w| ensures w[i] != '\n' {
        assert w[i] == content[start + i];
      }
    }
    var stripped := StripTrailingNewline(w);
    assert stripped == w;
    SplitLine(w, "");
    assert w + "" == w;
    assert Split(stripped) == [w + ""];
  }

  /** The concrete case: one 201-character line, `--lines=1`. */
  lemma OneLongLineDiverges()
    ensures !Terminates(seq(201, _ => 'a'), 1)
  {
    var content := seq(201, _ => 'a');
    assert forall i :: 0 <= i < |content| ==> content[i] == 'a';
    LongLineDiverges(content, 1);
  }

  /** When the window `content[start..]` has more than `n >= 1` lines
      after the strip, its last `n` lines are the last `n` lines of the
      whole file. */
  lemma {:induction false} WindowTail(content: string, start: int, n: int)
    requires 0 <= start <= |content| && n >= 1
    requires |Split(StripTrailingNewline(content[start..]))| > n
    ensures PySliceFrom(Split(StripTrailingNewline(content[start..])), -n) == TailOf(content, n)
  {
    var a, b := content[..start], content[start..];
    assert a + b == content;
    SuffixTail(a, b, n);
  }

  /** The same for a file given as the text `a` before the window `b`. */
  lemma SuffixTail(a: string, b: string, n: int)
    requires n >= 1 && |Split(StripTrailingNewline(b))| > n
    ensures PySliceFrom(Split(StripTrailingNewline(b)), -n) == TailOf(a + b, n)
  {
    var stripped := StripTrailingNewline(b);
    var whole, lines := Split(a + stripped), Split(stripped);
    assert Split(StripTrailingNewline(a + b)) == whole by {
      StripAppend(a, b);
    }
    assert whole == Fuse(Split(a), lines) by {
      SplitAppend(a, stripped);
    }
    assert |whole| >= |lines| && whole[|whole| - n..] == lines[|lines| - n..] by {
      FuseSuffix(whole, Split(a), lines, n);
    }
    assert PySliceFrom(lines, -n) == lines[|lines| - n..] by {
      PySliceFromLast(lines, n);
    }
  }

  /** The result of the as-written reader, whenever it returns, are the
      last `n` lines of the whole file (all of them if there are fewer),
      for every positive `n`. */
  lemma {:induction false} LastLinesCorrect(content: string, n: int)
    requires n >= 1 && Terminates(content, n)
    ensures LastLinesResult(content, n) == TailOf(content, n)
  {
    var start := WindowStart(content, n);
    assert FirstWindow(content, n) == content[start..];
    var lines := WindowLines(content, n);
    if |lines| > n {
      WindowTail(content, start, n);
    } else {
      assert start == 0 && content[start..] == content;
    }
  }

  /** A file of at most `LINE_SIZE * n` bytes is read in one pass from
      its start, so the reader always returns, with its last `n` lines. */
  lemma SmallFileTerminates(content: string, n: int)
    requires n >= 1 && |content| <= LINE_SIZE * n
    ensures WindowStart(content, n) == 0 && Terminates(content, n)
    ensures LastLinesResult(content, n) == TailOf(content, n)
  {
    LastLinesCorrect(content, n);
  }

  /** `--lines=0` prints one empty line, since `lines[-0:]` is the whole
      one-element list `['']`; a negative count prints nothing. */
  lemma NonPositiveCount(content: string, n: int)
    requires n <= 0
    ensures Terminates(content, n)
    ensures LastLinesResult(content, n) == if n == 0 then [""] else []
  {
    assert FirstWindow(content, n) == "";
  }

  /** An empty file gives `['']`: `''.split('\n')` is `['']`. */
  lemma EmptyFileLines(n: int)
    requires n >= 0
    ensures Terminates("", n) && LastLinesResult("", n) == [""]
  {
  }

  /** The examples: the last two lines of `a\nb\nc\nd\n` are `c` and
      `d`; asking for ten gives all four. */
  lemma FourLineExamples()
    ensures LastLinesResult("a\nb\nc\nd\n", 2) == ["c", "d"]
    ensures LastLinesResult("a\nb\nc\nd\n", 10) == ["a", "b", "c", "d"]
  {
    var content := "a\nb\nc\nd\n";
    assert FirstWindow(content, 2) == content;
    assert StripTrailingNewline(content) == "a\nb\nc\nd";
    SplitFourLines();
    assert WindowLines(content, 2) == ["a", "b", "c", "d"];
    assert ["a", "b", "c", "d"][2..] == ["c", "d"];
  }

  lemma SplitFourLines()
    ensures Split("a\nb\nc\nd") == ["a", "b", "c", "d"]
  {
    assert "d"[1..] == "" && Split("") == [""] && ["d"[0]] + "" == "d";
    assert Split("d") == ["d"];
    assert "\nd"[1..] == "d" && Split("\nd") == ["", "d"];
    assert ['c'] + "" == "c";
    assert "c\nd"[1..] == "\nd" && Split("c\nd") == ["c", "d"];
    SplitTwoMore();
  }

  lemma SplitTwoMore()
    requires Split("c\nd") == ["c", "d"]
    ensures Split("a\nb\nc\nd") == ["a", "b", "c", "d"]
  {
    assert "\nc\nd"[1..] == "c\nd" && Split("\nc\nd") == ["", "c", "d"];
    assert ['b'] + "" == "b";
    assert "b\nc\nd"[1..] == "\nc\nd" && Split("b\nc\nd") == ["b", "c", "d"];
    assert "\nb\nc\nd"[1..] == "b\nc\nd" && Split("\nb\nc\nd") == ["", "b", "c", "d"];
    assert ['a'] + "" == "a";
    assert "a\nb\nc\nd"[1..] == "\nb\nc\nd";
  }

  /** `_read_last_lines` with the window really widened: each further
      pass moves `start` back by `fetch_size` bytes. It always returns,
      and for a positive count it returns the last lines of the file. */
  method ReadLastLinesWidening(numLines: int, file: MesosFile) returns (lines: seq<string>)
    modifies file
    ensures numLines >= 1 ==> lines == TailOf(file.endpoint.content, numLines)
    ensures numLines <= 0 ==> lines == LastLinesResult(file.endpoint.content, numLines)
    ensures file.cursor == |file.endpoint.content|
  {
    ghost var content := file.endpoint.content;
    var fileSize := file.Size();
    var fetchSize := LINE_SIZE * numLines;
    var end := fileSize;
    var start := Max(fileSize - fetchSize, 0);
    var data := "";
    while true
      invariant fileSize == |content| && 0 <= start
      invariant numLines >= 1 ==> start <= end <= fileSize && data == content[end..]
      invariant numLines <= 0 ==> end == fileSize && data == "" && start == WindowStart(content, numLines)
      decreases start
    {
      file.Seek(start, SEEK_SET);
      var chunk := file.Read(Some(end - start));
      if numLines >= 1 {
        assert content[start..] == chunk + content[end..];
      }
      data := chunk + data;
      lines := Split(StripTrailingNewline(data));
      WidenedAnswer(content, start, numLines, data, lines);
      if |lines| > numLines {
        lines := PySliceFrom(lines, -numLines);
        break;
      } else if start == 0 {
        break;
      }
      end := start;
      start := Max(start - fetchSize, 0);
    }
    file.Seek(fileSize, SEEK_SET);
  }

  /** What a pass of the widening reader returns when it stops: the
      last lines of the window once there are more than `n` of them, or
      all the lines of the file once the window reaches its start. */
  lemma WidenedAnswer(content: string, start: int, n: int, data: string, lines: seq<string>)
    requires 0 <= start
    requires n >= 1 ==> start <= |content| && data == content[start..]
    requires n <= 0 ==> data == "" && start == WindowStart(content, n)
    requires lines == Split(StripTrailingNewline(data))
    ensures |lines| > n && n >= 1 ==> PySliceFrom(lines, -n) == TailOf(content, n)
    ensures |lines| > n && n <= 0 ==> PySliceFrom(lines, -n) == LastLinesResult(content, n)
    ensures |lines| <= n && start == 0 ==> n >= 1 && lines == TailOf(content, n)
  {
    if n >= 1 {
      if |lines| > n {
        WindowTail(content, start, n);
      } else if start == 0 {
        assert content[0..] == content;
      }
    } else {
      NonPositiveCount(content, n);
      assert FirstWindow(content, n) == "";
    }
  }

  /** `_read_rest`: whatever the file gained since the cursor, as lines;
      nothing when it gained nothing. */
  method ReadRest(file: MesosFile) returns (lines: seq<string>)
    modifies file
    ensures lines == RestLines(Remaining(file.endpoint.content, old(file.cursor)))
    ensures file.cursor == old(file.cursor) + |Remaining(file.endpoint.content, old(file.cursor))|
  {
    var data := file.Read(None);
    if data == "" {
      lines := [];
    } else {
      var stripped := StripTrailingNewline(data);
      lines := Split(stripped);
    }
  }

  /** One file through the whole command: the initial tail, then a
      follow pass with nothing new, then a follow pass after the task
      appended `more`. The follow passes print nothing, then exactly the
      appended lines. */
  method TailThenFollow(numLines: int, file: MesosFile, more: string)
      returns (first: seq<string>, idle: seq<string>, grown: seq<string>)
    requires numLines >= 1 && |file.endpoint.content| <= LINE_SIZE * numLines
    modifies file, file.endpoint
    ensures first == TailOf(old(file.endpoint.content), numLines)
    ensures idle == []
    ensures grown == RestLines(more)
  {
    ghost var content := file.endpoint.content;
    SmallFileTerminates(content, numLines);
    var r := ReadLastLines(numLines, file, 1);
    first := r.value;
    ReadAfterAppend(content, more);
    idle := ReadRest(file);
    file.endpoint.Append(more);
    grown := ReadRest(file);
  }
}
