/** The text operations of the tail command: Python's `str.split('\n')`,
    its inverse `'\n'.join`, the single-trailing-newline strip, and the
    two ways the command turns fetched data into lines to print. */
module Lines {
  import opened Util

  /** Python's `s.split('\n')`: the pieces between newlines. Splitting
      the empty string gives one empty piece. */
  function Split(s: string): (r: seq<string>)
    ensures |r| >= 1
    decreases |s|
  {
    if |s| == 0 then [""]
    else if s[0] == '\n' then [""] + Split(s[1..])
    else var rest := Split(s[1..]); [[s[0]] + rest[0]] + rest[1..]
  }

  /** Python's `'\n'.join(lines)`. */
  function Join(lines: seq<string>): string
    decreases |lines|
  {
    if |lines| == 0 then ""
    else if |lines| == 1 then lines[0]
    else lines[0] + "\n" + Join(lines[1..])
  }

  predicate NoNewlines(lines: seq<string>)
  {
    forall i :: 0 <= i < |lines| ==> '\n' !in lines[i]
  }

  /** Joining the pieces of a split with newlines gives back the string. */
  lemma {:induction false} JoinSplit(s: string)
    ensures Join(Split(s)) == s
    decreases |s|
  {
    if |s| == 0 {
    } else if s[0] == '\n' {
      JoinSplit(s[1..]);
      assert Split(s)[1..] == Split(s[1..]);
    } else {
      JoinSplit(s[1..]);
      var rest := Split(s[1..]);
      if |rest| >= 2 {
        assert Split(s)[1..] == rest[1..];
      }
    }
  }

  /** No piece of a split contains a newline. */
  lemma {:induction false} SplitNoNewlines(s: string)
    ensures NoNewlines(Split(s))
    decreases |s|
  {
    if |s| > 0 {
      SplitNoNewlines(s[1..]);
      var rest := Split(s[1..]);
      if s[0] != '\n' {
        assert '\n' !in [s[0]] + rest[0];
      }
    }
  }

  /** Splitting a newline-join of newline-free lines gives the lines back. */
  lemma {:induction false} SplitJoin(lines: seq<string>)
    requires |lines| >= 1 && NoNewlines(lines)
    ensures Split(Join(lines)) == lines
    decreases |lines|
  {
    if |lines| == 1 {
      SplitLine(lines[0], []);
      assert lines[0] + [] == lines[0];
      assert lines[0] + Split([])[0] == lines[0];
    } else {
      var tail := Join(lines[1..]);
      SplitJoin(lines[1..]);
      SplitLine(lines[0], "\n" + tail);
      assert lines[0] + "\n" + tail == lines[0] + ("\n" + tail);
      assert ("\n" + tail)[1..] == tail;
      assert Split("\n" + tail) == [""] + lines[1..];
      assert lines[0] + "" == lines[0];
      assert lines == [lines[0]] + lines[1..];
    }
  }

  /** A newline-free prefix glues onto the first piece of the rest. */
  lemma {:induction false} SplitLine(line: string, rest: string)
    requires '\n' !in line
    ensures Split(line + rest) == [line + Split(rest)[0]] + Split(rest)[1..]
    decreases |line|
  {
    if |line| > 0 {
      SplitLine(line[1..], rest);
      assert (line + rest)[1..] == line[1..] + rest;
      assert [line[0]] + (line[1..] + Split(rest)[0]) == line + Split(rest)[0];
    } else {
      assert line + rest == rest;
      assert line + Split(rest)[0] == Split(rest)[0];
      assert Split(rest) == [Split(rest)[0]] + Split(rest)[1..];
    }
  }

  /** The pieces of `x` then `y`, with the last piece of `x` and the
      first of `y` fused into one. */
  function Fuse(x: seq<string>, y: seq<string>): seq<string>
    requires |x| >= 1 && |y| >= 1
  {
    x[..|x| - 1] + [x[|x| - 1] + y[0]] + y[1..]
  }

  lemma FuseCons(p: string, x: seq<string>, y: seq<string>)
    requires |x| >= 1 && |y| >= 1
    ensures Fuse([p] + x, y) == [p] + Fuse(x, y)
  {
    assert ([p] + x)[..|x|] == [p] + x[..|x| - 1];
  }

  lemma FuseExtendFirst(c: char, x: seq<string>, y: seq<string>)
    requires |x| >= 1 && |y| >= 1
    ensures var f := Fuse(x, y);
            [[c] + f[0]] + f[1..] == Fuse([[c] + x[0]] + x[1..], y)
  {
    var f := Fuse(x, y);
    if |x| == 1 {
      assert f == [x[0] + y[0]] + y[1..];
      assert [c] + (x[0] + y[0]) == ([c] + x[0]) + y[0];
    } else {
      assert f[0] == x[0];
      assert f[1..] == x[1..|x| - 1] + [x[|x| - 1] + y[0]] + y[1..];
      assert ([[c] + x[0]] + x[1..])[..|x| - 1] == [[c] + x[0]] + x[1..|x| - 1];
    }
  }

  /** Splitting a concatenation: the last piece of `a` and the first
      piece of `b` fuse, every other piece is kept. */
  lemma {:induction false} SplitAppend(a: string, b: string)
    ensures Split(a + b) == Fuse(Split(a), Split(b))
    decreases |a|
  {
    if |a| == 0 {
      assert a + b == b;
      assert Split(a) == [""];
      assert "" + Split(b)[0] == Split(b)[0];
      assert Fuse(Split(a), Split(b)) == [Split(b)[0]] + Split(b)[1..];
    } else {
      SplitAppend(a[1..], b);
      assert (a + b)[1..] == a[1..] + b;
      var sa', sb := Split(a[1..]), Split(b);
      if a[0] == '\n' {
        FuseCons("", sa', sb);
      } else {
        FuseExtendFirst(a[0], sa', sb);
      }
    }
  }

  /** Fusing keeps every piece of `y` after its first: so text put
      before a string leaves all of its lines but the first untouched. */
  lemma FuseSuffix(f: seq<string>, x: seq<string>, y: seq<string>, n: nat)
    requires |x| >= 1 && n < |y| && f == Fuse(x, y)
    ensures |y| <= |f| && f[|f| - n..] == y[|y| - n..]
  {
    var front := x[..|x| - 1] + [x[|x| - 1] + y[0]];
    assert f == front + y[1..];
    assert f[|f| - n..] == y[1..][|y| - 1 - n..];
  }

  /** `_strip_trailing_newline`: drop one final newline, if there is one. */
  function StripTrailingNewline(s: string): (r: string)
    ensures r <= s && |s| - 1 <= |r|
    ensures s == "" ==> r == ""
    ensures |s| > 0 && s[|s| - 1] == '\n' ==> r == s[..|s| - 1]
    ensures |s| > 0 && s[|s| - 1] != '\n' ==> r == s
  {
    if s == "" then s
    else if s[|s| - 1] == '\n' then s[..|s| - 1]
    else s
  }

  /** Stripping only looks at the end: text put before a non-empty
      string survives the strip unchanged. */
  lemma StripAppend(a: string, b: string)
    requires b != ""
    ensures StripTrailingNewline(a + b) == a + StripTrailingNewline(b)
  {
    if b[|b| - 1] == '\n' {
      assert (a + b)[..|a + b| - 1] == a + b[..|b| - 1];
    }
  }

  /** The lines `_read_rest` returns for the data read since the cursor:
      none for no data, otherwise the stripped data split on newlines. */
  function RestLines(data: string): (r: seq<string>)
    ensures r == [] <==> data == ""
    ensures data != "" ==> Join(r) == StripTrailingNewline(data) && NoNewlines(r)
  {
    if data == "" then []
    else
      var stripped := StripTrailingNewline(data);
      JoinSplit(stripped);
      SplitNoNewlines(stripped);
      Split(stripped)
  }

  /** What `_read_last_lines` keeps of the lines of its window: the
      slice `lines[-n:]` once there are more than `n`, else all of them. */
  function KeepLast(lines: seq<string>, n: int): seq<string>
  {
    if |lines| > n then PySliceFrom(lines, -n) else lines
  }

  /** The last `n` lines of a whole file, as `tail -n` would print them
      (the file's final newline does not open an extra empty line). */
  function TailOf(content: string, n: nat): (r: seq<string>)
  {
    var lines := Split(StripTrailingNewline(content));
    if |lines| > n then lines[|lines| - n..] else lines
  }
}
