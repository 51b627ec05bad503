/** The driver of the tail command (cli/dcoscli/tail/main.py): printing
    grouped under headers, one pass over the files with failing files
    dropped, probing the agents, choosing the files to read, and the
    follow loop.

    The thread pool is left out: a pass is given as the order in which
    the jobs complete (a permutation of the jobs) and each job's outcome.
    Printing is the sequence of emitted items. */
module TailEngine {
  import opened Util
  import opened Lines

  /** One published item: a line of a file, a header banner, the error
      of a file that could not be read, or an agent that could not be
      reached. */
  datatype Emit =
    | Line(text: string)
    | Banner(header: string)
    | FileError(message: string)
    | AgentUnreachable(url: string, message: string)

  /** What the item prints as. */
  function Render(e: Emit): string
  {
    match e
    case Line(t) => t
    case Banner(h) => "===> " + h + " <==="
    case FileError(m) => "Error reading file: " + m
    case AgentUnreachable(u, m) => "Slave at URL " + u + " is unreachable: " + m
  }

  /** The outcome of one reading job: the lines read, or the message of
      the `DCOSException` it raised. */
  datatype Outcome = Read(lines: seq<string>) | ReadError(message: string)

  function LinesOf(lines: seq<string>): (r: seq<Emit>)
    ensures |r| == |lines| && forall i :: 0 <= i < |lines| ==> r[i] == Line(lines[i])
  {
    if lines == [] then [] else [Line(lines[0])] + LinesOf(lines[1..])
  }

  /** The texts of the `Line` items, in order. */
  function Texts(es: seq<Emit>): seq<string>
  {
    if es == [] then []
    else (if es[0].Line? then [es[0].text] else []) + Texts(es[1..])
  }

  /** The messages of the `FileError` items, in order. */
  function Errors(es: seq<Emit>): seq<string>
  {
    if es == [] then []
    else (if es[0].FileError? then [es[0].message] else []) + Errors(es[1..])
  }

  function Banners(es: seq<Emit>): seq<string>
  {
    if es == [] then []
    else (if es[0].Banner? then [es[0].header] else []) + Banners(es[1..])
  }

  lemma {:induction false} ItemsAppend(a: seq<Emit>, b: seq<Emit>)
    ensures Texts(a + b) == Texts(a) + Texts(b)
    ensures Errors(a + b) == Errors(a) + Errors(b)
    ensures Banners(a + b) == Banners(a) + Banners(b)
    decreases |a|
  {
    var ab := a + b;
    if a != [] {
      assert ab[0] == a[0] && ab[1..] == a[1..] + b;
      ItemsAppend(a[1..], b);
    } else {
      assert ab == b;
    }
  }

  lemma {:induction false} ItemsOfLines(lines: seq<string>)
    ensures Texts(LinesOf(lines)) == lines
    ensures Errors(LinesOf(lines)) == [] && Banners(LinesOf(lines)) == []
    decreases |lines|
  {
    if lines != [] {
      ItemsOfLines(lines[1..]);
      assert LinesOf(lines) == [Line(lines[0])] + LinesOf(lines[1..]);
      ItemsAppend([Line(lines[0])], LinesOf(lines[1..]));
      assert [Line(lines[0])][1..] == [];
      assert lines == [lines[0]] + lines[1..];
    }
  }

  /** `_output(curr_header, header, lines)`: the items printed and the
      header it returns. */
  function Output(curr: Option<string>, header: string, lines: seq<string>): (seq<Emit>, string)
  {
    var banner := if lines != [] && curr != Some(header) then [Banner(header)] else [];
    (banner + LinesOf(lines), header)
  }

  /** `_output` prints every line in order, preceded by the banner of
      `header` exactly when there are lines and the header changes, and
      returns `header` whether or not anything was printed. */
  lemma OutputPrints(curr: Option<string>, header: string, lines: seq<string>)
    ensures var (es, h) := Output(curr, header, lines);
            && h == header
            && Texts(es) == lines && Errors(es) == []
            && Banners(es) == (if lines != [] && curr != Some(header) then [header] else [])
            && (lines == [] ==> es == [])
  {
    var banner := if lines != [] && curr != Some(header) then [Banner(header)] else [];
    ItemsAppend(banner, LinesOf(lines));
    ItemsOfLines(lines);
    if banner != [] {
      assert banner[1..] == [];
    }
  }

  /** Lines under the header already current are printed without a
      banner: consecutive outputs of one file are grouped. */
  lemma OutputGroups(header: string, lines: seq<string>)
    ensures Output(Some(header), header, lines).0 == LinesOf(lines)
  {
    assert [] + LinesOf(lines) == LinesOf(lines);
  }

  // ---------------------------------------------------------------------
  // One pass: `_stream_files`

  /** The items and final header of a pass whose jobs complete in
      `order`: a failing file prints an error, every other file goes
      through `_output` with the header threaded along. */
  function Drain(curr: Option<string>, headers: seq<string>, order: seq<nat>, outcome: seq<Outcome>)
    : (seq<Emit>, Option<string>)
    requires forall i :: 0 <= i < |order| ==> order[i] < |headers| && order[i] < |outcome|
    decreases |order|
  {
    if order == [] then ([], curr)
    else
      var f := order[0];
      match outcome[f]
      case ReadError(msg) =>
        var rest := Drain(curr, headers, order[1..], outcome);
        ([FileError(msg)] + rest.0, rest.1)
      case Read(lines) =>
        var (es, h) := Output(curr, headers[f], lines);
        var rest := Drain(Some(h), headers, order[1..], outcome);
        (es + rest.0, rest.1)
  }

  /** The lines of the files read, file after file in completion order. */
  function ReadLines(order: seq<nat>, outcome: seq<Outcome>): seq<string>
    requires forall i :: 0 <= i < |order| ==> order[i] < |outcome|
    decreases |order|
  {
    if order == [] then []
    else (match outcome[order[0]] case Read(ls) => ls case ReadError(_) => []) + ReadLines(order[1..], outcome)
  }

  /** The error reports of the failing files, in completion order. */
  function ReadErrors(order: seq<nat>, outcome: seq<Outcome>): seq<string>
    requires forall i :: 0 <= i < |order| ==> order[i] < |outcome|
    decreases |order|
  {
    if order == [] then []
    else
      (match outcome[order[0]] case Read(_) => [] case ReadError(m) => [m])
      + ReadErrors(order[1..], outcome)
  }

  /** The last file of `order` that was read, if any. */
  function LastRead(order: seq<nat>, outcome: seq<Outcome>): (r: Option<nat>)
    requires forall i :: 0 <= i < |order| ==> order[i] < |outcome|
    ensures r.Some? ==> r.value in order && outcome[r.value].Read?
    ensures r.None? ==> forall i :: 0 <= i < |order| ==> outcome[order[i]].ReadError?
    decreases |order|
  {
    if order == [] then None
    else match LastRead(order[1..], outcome)
      case Some(f) => Some(f)
      case None => if outcome[order[0]].Read? then Some(order[0]) else None
  }

  /** What a pass prints: exactly the lines of the files read, in
      completion order, and one report per failing file; and the header
      it leaves current is that of the last file read, or the one it
      started with when no file was read. */
  lemma {:induction false} DrainSpec(curr: Option<string>, headers: seq<string>, order: seq<nat>, outcome: seq<Outcome>)
    requires forall i :: 0 <= i < |order| ==> order[i] < |headers| && order[i] < |outcome|
    ensures var (es, h) := Drain(curr, headers, order, outcome);
            && Texts(es) == ReadLines(order, outcome)
            && Errors(es) == ReadErrors(order, outcome)
            && h == match LastRead(order, outcome) case None => curr case Some(f) => Some(headers[f])
    decreases |order|
  {
    if order != [] {
      var f := order[0];
      match outcome[f]
      case ReadError(msg) => {
        DrainSpec(curr, headers, order[1..], outcome);
        var rest := Drain(curr, headers, order[1..], outcome);
        ItemsAppend([FileError(msg)], rest.0);
        assert [FileError(msg)][1..] == [];
      }
      case Read(lines) => {
        var (es, h) := Output(curr, headers[f], lines);
        OutputPrints(curr, headers[f], lines);
        DrainSpec(Some(h), headers, order[1..], outcome);
        var rest := Drain(Some(h), headers, order[1..], outcome);
        ItemsAppend(es, rest.0);
      }
    }
  }

  /** The job of file `x` read it. */
  predicate IsRead(outcome: seq<Outcome>, x: nat)
  {
    x < |outcome| && outcome[x].Read?
  }

  /** The files of `files`, in their order, whose job read them. */
  function Survivors(files: seq<nat>, outcome: seq<Outcome>): seq<nat>
    decreases |files|
  {
    if files == [] then []
    else (if IsRead(outcome, files[0]) then [files[0]] else []) + Survivors(files[1..], outcome)
  }

  /** The files of `files` outside `dropped`, in their order. */
  function Without(files: seq<nat>, dropped: set<nat>): seq<nat>
    decreases |files|
  {
    if files == [] then []
    else (if files[0] in dropped then [] else [files[0]]) + Without(files[1..], dropped)
  }

  lemma {:induction false} WithoutMember(files: seq<nat>, dropped: set<nat>, x: nat)
    ensures x in Without(files, dropped) <==> x in files && x !in dropped
    decreases |files|
  {
    if files != [] {
      WithoutMember(files[1..], dropped, x);
      assert files == [files[0]] + files[1..];
    }
  }

  lemma {:induction false} WithoutIgnores(files: seq<nat>, dropped: set<nat>, x: nat)
    requires x !in files
    ensures Without(files, dropped + {x}) == Without(files, dropped)
    decreases |files|
  {
    if files != [] {
      WithoutIgnores(files[1..], dropped, x);
    }
  }

  lemma RemoveFirstCons<T>(x: T, s: seq<T>, y: T)
    requires y in [x] + s
    ensures y != x ==> y in s
    ensures RemoveFirst([x] + s, y) == if x == y then s else [x] + RemoveFirst(s, y)
  {
    var xs := [x] + s;
    if x != y {
      assert y in s by { assert xs[0] == x; }
      var i := IndexOf(s, y);
      assert IndexOf(xs, y) == 1 + i by { assert xs[1..] == s; }
      calc {
        RemoveFirst(xs, y);
        xs[..1 + i] + xs[1 + i + 1..];
        { assert xs[..1 + i] == [x] + s[..i] && xs[1 + i + 1..] == s[i + 1..]; }
        ([x] + s[..i]) + s[i + 1..];
        [x] + (s[..i] + s[i + 1..]);
      }
    } else {
      assert IndexOf(xs, y) == 0;
      assert xs[1..] == s;
    }
  }

  /** `reachable_files.remove(f)` on the files not yet dropped is
      dropping `f` as well. */
  lemma {:induction false} RemoveFirstWithout(files: seq<nat>, dropped: set<nat>, f: nat)
    requires Distinct(files) && f in files && f !in dropped
    ensures f in Without(files, dropped)
    ensures RemoveFirst(Without(files, dropped), f) == Without(files, dropped + {f})
    decreases |files|
  {
    WithoutMember(files, dropped, f);
    var x, rest := files[0], files[1..];
    assert files == [x] + rest;
    DistinctTail(files);
    if x == f {
      WithoutIgnores(rest, dropped, f);
      RemoveFirstCons(x, Without(rest, dropped), f);
    } else {
      assert f in rest;
      RemoveFirstWithout(rest, dropped, f);
      if x !in dropped {
        RemoveFirstCons(x, Without(rest, dropped), f);
      } else {
        assert Without(files, dropped) == Without(rest, dropped);
        assert Without(files, dropped + {f}) == Without(rest, dropped + {f});
      }
    }
  }

  lemma {:induction false} WithoutIsSurvivors(files: seq<nat>, dropped: set<nat>, outcome: seq<Outcome>)
    requires forall i :: 0 <= i < |files| ==> files[i] < |outcome|
    requires forall i :: 0 <= i < |files| ==> (files[i] in dropped <==> !IsRead(outcome, files[i]))
    ensures Without(files, dropped) == Survivors(files, outcome)
    decreases |files|
  {
    if files != [] {
      WithoutIsSurvivors(files[1..], dropped, outcome);
    }
  }

  /** A file is kept by a pass exactly when it was a file of the pass
      and its job read it; the kept files keep their order. */
  lemma {:induction false} SurvivorsMember(files: seq<nat>, outcome: seq<Outcome>, x: nat)
    ensures x in Survivors(files, outcome) <==> x in files && IsRead(outcome, x)
    decreases |files|
  {
    if files != [] {
      SurvivorsMember(files[1..], outcome, x);
      assert files == [files[0]] + files[1..];
    }
  }

  lemma {:induction false} SurvivorsDistinct(files: seq<nat>, outcome: seq<Outcome>)
    requires Distinct(files)
    ensures Distinct(Survivors(files, outcome))
    ensures forall i :: 0 <= i < |Survivors(files, outcome)| ==> Survivors(files, outcome)[i] in files
    decreases |files|
  {
    var r := Survivors(files, outcome);
    forall x | x in r ensures x in files {
      SurvivorsMember(files, outcome, x);
    }
    if files != [] {
      var rest := files[1..];
      DistinctTail(files);
      SurvivorsDistinct(rest, outcome);
      var head := if IsRead(outcome, files[0]) then [files[0]] else [];
      assert Survivors(files, outcome) == head + Survivors(rest, outcome);
      if IsRead(outcome, files[0]) {
        DistinctCons(files[0], Survivors(rest, outcome));
      } else {
        assert head + Survivors(rest, outcome) == Survivors(rest, outcome);
      }
      forall x | x in Survivors(rest, outcome) ensures x != files[0] {
        SurvivorsMember(rest, outcome, x);
      }
    }
  }

  /** `_stream_files(curr_header, fn, files)`, with the jobs completing
      in `order` and ending as `outcome` says: the files still readable
      (the input minus exactly the failing ones, in input order), the
      header left current, and the items printed. */
  method StreamFiles(curr: Option<string>, headers: seq<string>, files: seq<nat>, order: seq<nat>,
                     outcome: seq<Outcome>)
    returns (header: Option<string>, reachable: seq<nat>, emitted: seq<Emit>)
    requires Distinct(files) && IsPermutationOf(order, files)
    requires forall i :: 0 <= i < |files| ==> files[i] < |headers| && files[i] < |outcome|
    ensures reachable == Survivors(files, outcome)
    ensures (emitted, header) == Drain(curr, headers, order, outcome)
  {
    reachable := files;
    header := curr;
    emitted := [];
    ghost var dropped: set<nat> := {};
    StreamStart(curr, headers, files, order, outcome);
    var k := 0;
    while k < |order|
      invariant 0 <= k <= |order|
      invariant Streamed(curr, headers, files, order, outcome, k, header, reachable, emitted, dropped)
    {
      var f := order[k];
      match outcome[f] {
        case ReadError(msg) =>
          StreamStepFailed(curr, headers, files, order, outcome, k, header, reachable, emitted, dropped);
          emitted := emitted + [FileError(msg)];
          reachable := RemoveFirst(reachable, f);
          dropped := dropped + {f};
        case Read(lines) =>
          StreamStepRead(curr, headers, files, order, outcome, k, header, reachable, emitted, dropped);
          emitted := emitted + Output(header, headers[f], lines).0;
          header := Some(headers[f]);
      }
      k := k + 1;
    }
    StreamDone(curr, headers, files, order, outcome, header, reachable, emitted, dropped);
  }

  /** Before any job completes nothing is printed and no file is dropped. */
  lemma StreamStart(curr: Option<string>, headers: seq<string>, files: seq<nat>, order: seq<nat>,
                    outcome: seq<Outcome>)
    requires IsPermutationOf(order, files)
    requires forall i :: 0 <= i < |files| ==> files[i] < |headers| && files[i] < |outcome|
    ensures Streamed(curr, headers, files, order, outcome, 0, curr, files, [], {})
  {
    WithoutIsSurvivorsNone(files);
    forall i | 0 <= i < |order| ensures order[i] < |headers| && order[i] < |outcome| {
      var j :| 0 <= j < |files| && files[j] == order[i];
    }
    assert order[0..] == order;
    assert [] + Drain(curr, headers, order, outcome).0 == Drain(curr, headers, order, outcome).0;
  }

  /** Once every job completed, the files left are the survivors and the
      items printed are those of the whole pass. */
  lemma StreamDone(curr: Option<string>, headers: seq<string>, files: seq<nat>, order: seq<nat>,
                   outcome: seq<Outcome>, header: Option<string>, reachable: seq<nat>,
                   emitted: seq<Emit>, dropped: set<nat>)
    requires IsPermutationOf(order, files)
    requires forall i :: 0 <= i < |files| ==> files[i] < |outcome|
    requires Streamed(curr, headers, files, order, outcome, |order|, header, reachable, emitted, dropped)
    ensures reachable == Survivors(files, outcome)
    ensures (emitted, header) == Drain(curr, headers, order, outcome)
  {
    assert order[..|order|] == order && order[|order|..] == [];
    assert Drain(header, headers, order[|order|..], outcome) == ([], header);
    assert emitted + [] == emitted;
    WithoutIsSurvivors(files, dropped, outcome);
  }

  /** What `_stream_files` has done once the first `k` jobs completed:
      the files left are the input without those that failed so far, and
      the items printed and the header current are those of `Drain` over
      the jobs yet to complete. */
  ghost predicate Streamed(curr: Option<string>, headers: seq<string>, files: seq<nat>, order: seq<nat>,
                           outcome: seq<Outcome>, k: nat, header: Option<string>, reachable: seq<nat>,
                           emitted: seq<Emit>, dropped: set<nat>)
  {
    && k <= |order|
    && (forall i :: 0 <= i < |order| ==> order[i] < |headers| && order[i] < |outcome|)
    && reachable == Without(files, dropped)
    && (forall x :: x in dropped <==> x in order[..k] && !IsRead(outcome, x))
    && var rest := Drain(header, headers, order[k..], outcome);
       Drain(curr, headers, order, outcome) == (emitted + rest.0, rest.1)
  }

  /** A job that failed keeps `Streamed`: its file leaves the reachable
      files and its error is printed. */
  lemma StreamStepFailed(curr: Option<string>, headers: seq<string>, files: seq<nat>, order: seq<nat>,
                         outcome: seq<Outcome>, k: nat, header: Option<string>, reachable: seq<nat>,
                         emitted: seq<Emit>, dropped: set<nat>)
    requires Distinct(files) && IsPermutationOf(order, files) && k < |order|
    requires Streamed(curr, headers, files, order, outcome, k, header, reachable, emitted, dropped)
    requires outcome[order[k]].ReadError?
    ensures order[k] in reachable
    ensures Streamed(curr, headers, files, order, outcome, k + 1, header, RemoveFirst(reachable, order[k]),
                     emitted + [FileError(outcome[order[k]].message)], dropped + {order[k]})
  {
    var f := order[k];
    DropStep(order, k, dropped, outcome);
    DrainStep(header, headers, order, k, outcome);
    var d := Drain(header, headers, order[k + 1..], outcome);
    RemoveFirstWithout(files, dropped, f);
    var e := FileError(outcome[f].message);
    assert emitted + ([e] + d.0) == (emitted + [e]) + d.0;
  }

  /** A job that read its file keeps `Streamed`: its lines go through
      `_output` and its header becomes current. */
  lemma StreamStepRead(curr: Option<string>, headers: seq<string>, files: seq<nat>, order: seq<nat>,
                         outcome: seq<Outcome>, k: nat, header: Option<string>, reachable: seq<nat>,
                         emitted: seq<Emit>, dropped: set<nat>)
    requires Distinct(files) && IsPermutationOf(order, files) && k < |order|
    requires Streamed(curr, headers, files, order, outcome, k, header, reachable, emitted, dropped)
    requires outcome[order[k]].Read?
    ensures Streamed(curr, headers, files, order, outcome, k + 1, Some(headers[order[k]]), reachable,
                     emitted + Output(header, headers[order[k]], outcome[order[k]].lines).0, dropped)
  {
    var f := order[k];
    DropStep(order, k, dropped, outcome);
    DrainStep(header, headers, order, k, outcome);
    var o := Output(header, headers[f], outcome[f].lines);
    var d := Drain(Some(o.1), headers, order[k + 1..], outcome);
    assert emitted + (o.0 + d.0) == (emitted + o.0) + d.0;
  }

  /** The failing files seen so far, one job further on. */
  lemma DropStep(order: seq<nat>, k: nat, dropped: set<nat>, outcome: seq<Outcome>)
    requires Distinct(order) && k < |order|
    requires forall x :: x in dropped <==> x in order[..k] && !IsRead(outcome, x)
    ensures order[k] !in dropped
    ensures var d := if IsRead(outcome, order[k]) then dropped else dropped + {order[k]};
            forall x :: x in d <==> x in order[..k + 1] && !IsRead(outcome, x)
  {
    assert order[..k + 1] == order[..k] + [order[k]];
  }

  /** `Drain` of the jobs from `k` on, one job unfolded. */
  lemma DrainStep(curr: Option<string>, headers: seq<string>, order: seq<nat>, k: nat, outcome: seq<Outcome>)
    requires k < |order|
    requires forall i :: 0 <= i < |order| ==> order[i] < |headers| && order[i] < |outcome|
    ensures var f, rest := order[k], order[k + 1..];
            Drain(curr, headers, order[k..], outcome) ==
              if outcome[f].ReadError? then
                var d := Drain(curr, headers, rest, outcome);
                ([FileError(outcome[f].message)] + d.0, d.1)
              else
                var o := Output(curr, headers[f], outcome[f].lines);
                var d := Drain(Some(o.1), headers, rest, outcome);
                (o.0 + d.0, d.1)
  {
    assert order[k..][1..] == order[k + 1..];
  }

  lemma {:induction false} WithoutIsSurvivorsNone(files: seq<nat>)
    ensures Without(files, {}) == files
    decreases |files|
  {
    if files != [] {
      WithoutIsSurvivorsNone(files[1..]);
      assert files == [files[0]] + files[1..];
    }
  }

  // ---------------------------------------------------------------------
  // Probing the agents: `_load_slaves_state`

  /** The outcome of one agent's `state()` job. */
  datatype Probe = Reached | ConnectionError(message: string)

  /** `[0, 1, ..., n - 1]`: the jobs submitted for `n` inputs. */
  function Range(n: nat): (r: seq<nat>)
    ensures |r| == n && forall i :: 0 <= i < n ==> r[i] == i
  {
    if n == 0 then [] else Range(n - 1) + [n - 1]
  }

  /** The agents whose job succeeded, in completion order (an agent
      with several jobs appears once per successful job). */
  function ReachedIn(slaves: seq<string>, order: seq<nat>, probes: seq<Probe>): seq<string>
    requires forall i :: 0 <= i < |order| ==> order[i] < |slaves| && order[i] < |probes|
    decreases |order|
  {
    if order == [] then []
    else (if probes[order[0]].Reached? then [slaves[order[0]]] else []) + ReachedIn(slaves, order[1..], probes)
  }

  /** The reports of the jobs that failed, in completion order. */
  function Reports(urls: seq<string>, order: seq<nat>, probes: seq<Probe>): seq<Emit>
    requires forall i :: 0 <= i < |order| ==> order[i] < |urls| && order[i] < |probes|
    decreases |order|
  {
    if order == [] then []
    else
      (match probes[order[0]] case Reached => [] case ConnectionError(m) => [AgentUnreachable(urls[order[0]], m)])
      + Reports(urls, order[1..], probes)
  }

  /** `_load_slaves_state(slaves)`, with the jobs for `slaves[j]`
      completing in `order` and ending as `probes[j]` says: the agents
      reached, in completion order, and one report per failed job. */
  method LoadSlavesState(slaves: seq<string>, urls: seq<string>, order: seq<nat>, probes: seq<Probe>)
    returns (reachable: seq<string>, emitted: seq<Emit>)
    requires |urls| == |slaves| && |probes| == |slaves|
    requires IsPermutationOf(order, Range(|slaves|))
    ensures reachable == ReachedIn(slaves, order, probes)
    ensures emitted == Reports(urls, order, probes)
  {
    RangeBounds(order, |slaves|);
    reachable := [];
    emitted := [];
    var k := 0;
    assert order[0..] == order;
    while k < |order|
      invariant 0 <= k <= |order|
      invariant ReachedIn(slaves, order, probes) == reachable + ReachedIn(slaves, order[k..], probes)
      invariant Reports(urls, order, probes) == emitted + Reports(urls, order[k..], probes)
    {
      var j := order[k];
      ProbeStep(slaves, urls, order, probes, k);
      ghost var reached, reports := ReachedIn(slaves, order[k + 1..], probes), Reports(urls, order[k + 1..], probes);
      match probes[j] {
        case Reached =>
          assert reachable + ([slaves[j]] + reached) == (reachable + [slaves[j]]) + reached;
          assert [] + reports == reports;
          reachable := reachable + [slaves[j]];
        case ConnectionError(e) =>
          var report := AgentUnreachable(urls[j], e);
          assert emitted + ([report] + reports) == (emitted + [report]) + reports;
          assert [] + reached == reached;
          emitted := emitted + [report];
      }
      k := k + 1;
    }
    assert order[k..] == [];
    assert reachable + [] == reachable && emitted + [] == emitted;
  }

  /** The jobs of a completion order of `Range(n)` are below `n`. */
  lemma RangeBounds(order: seq<nat>, n: nat)
    requires IsPermutationOf(order, Range(n))
    ensures forall i :: 0 <= i < |order| ==> order[i] < n
  {
    forall i | 0 <= i < |order| ensures order[i] < n {
      var j :| 0 <= j < n && Range(n)[j] == order[i];
    }
  }

  /** The agents reached and the reports from job `k` on, one job unfolded. */
  lemma ProbeStep(slaves: seq<string>, urls: seq<string>, order: seq<nat>, probes: seq<Probe>, k: nat)
    requires k < |order|
    requires forall i :: 0 <= i < |order| ==> order[i] < |slaves| && order[i] < |urls| && order[i] < |probes|
    ensures var j := order[k];
            && ReachedIn(slaves, order[k..], probes)
               == (if probes[j].Reached? then [slaves[j]] else []) + ReachedIn(slaves, order[k + 1..], probes)
            && Reports(urls, order[k..], probes)
               == (if probes[j].Reached? then [] else [AgentUnreachable(urls[j], probes[j].message)])
                  + Reports(urls, order[k + 1..], probes)
  {
    assert order[k..][1..] == order[k + 1..];
  }

  /** Every job either reaches its agent or is reported, never both. */
  lemma {:induction false} ProbesAccounted(slaves: seq<string>, urls: seq<string>, order: seq<nat>, probes: seq<Probe>)
    requires forall i :: 0 <= i < |order| ==> order[i] < |slaves| && order[i] < |urls| && order[i] < |probes|
    ensures |ReachedIn(slaves, order, probes)| + |Reports(urls, order, probes)| == |order|
    decreases |order|
  {
    if order != [] {
      ProbesAccounted(slaves, urls, order[1..], probes);
      var j := order[0];
      assert ReachedIn(slaves, order, probes)
          == (if probes[j].Reached? then [slaves[j]] else []) + ReachedIn(slaves, order[1..], probes);
      assert Reports(urls, order, probes)
          == (match probes[j] case Reached => [] case ConnectionError(m) => [AgentUnreachable(urls[j], m)])
             + Reports(urls, order[1..], probes);
    }
  }

  /** An agent is reachable exactly when one of its jobs succeeded. */
  lemma ReachedMember(slaves: seq<string>, order: seq<nat>, probes: seq<Probe>, s: string)
    requires |probes| == |slaves| && IsPermutationOf(order, Range(|slaves|))
    requires forall i :: 0 <= i < |order| ==> order[i] < |slaves|
    ensures s in ReachedIn(slaves, order, probes) <==>
            exists j :: 0 <= j < |slaves| && slaves[j] == s && probes[j].Reached?
  {
    ReachedInMember(slaves, order, probes, s);
    if exists j :: 0 <= j < |slaves| && slaves[j] == s && probes[j].Reached? {
      var j :| 0 <= j < |slaves| && slaves[j] == s && probes[j].Reached?;
      assert Range(|slaves|)[j] == j;
      var i :| 0 <= i < |order| && order[i] == j;
    }
  }

  lemma {:induction false} ReachedInMember(slaves: seq<string>, order: seq<nat>, probes: seq<Probe>, s: string)
    requires forall i :: 0 <= i < |order| ==> order[i] < |slaves| && order[i] < |probes|
    ensures s in ReachedIn(slaves, order, probes) <==>
            exists i :: 0 <= i < |order| && slaves[order[i]] == s && probes[order[i]].Reached?
    decreases |order|
  {
    if order != [] {
      ReachedInMember(slaves, order[1..], probes, s);
      if exists i :: 0 <= i < |order| && slaves[order[i]] == s && probes[order[i]].Reached? {
        var i :| 0 <= i < |order| && slaves[order[i]] == s && probes[order[i]].Reached?;
        if i > 0 {
          assert order[1..][i - 1] == order[i];
        }
      }
      if exists i :: 0 <= i < |order[1..]| && slaves[order[1..][i]] == s && probes[order[1..][i]].Reached? {
        var i :| 0 <= i < |order[1..]| && slaves[order[1..][i]] == s && probes[order[1..][i]].Reached?;
        assert order[i + 1] == order[1..][i];
      }
    }
  }

  // ---------------------------------------------------------------------
  // Choosing the files: `_mesos_files`

  /** A task to read from, named with the agent `task.slave()` finds. */
  datatype Target = Target(task: string, agent: string)

  /** The targets whose agent is reachable, in task order.  The source
      tests membership of the agent object among the reachable agent
      objects, by identity; that agrees with comparing agent ids here
      because the master hands out one cached object per agent id. */
  function MesosFiles(tasks: seq<Target>, reachable: seq<string>): seq<Target>
    decreases |tasks|
  {
    if tasks == [] then []
    else (if tasks[0].agent in reachable then [tasks[0]] else []) + MesosFiles(tasks[1..], reachable)
  }

  /** A task gets a file exactly when its agent is reachable ... */
  lemma {:induction false} MesosFilesMember(tasks: seq<Target>, reachable: seq<string>, t: Target)
    ensures t in MesosFiles(tasks, reachable) <==> t in tasks && t.agent in reachable
    decreases |tasks|
  {
    if tasks != [] {
      MesosFilesMember(tasks[1..], reachable, t);
      assert tasks == [tasks[0]] + tasks[1..];
    }
  }

  /** ... and the files keep the order of the tasks. */
  lemma {:induction false} MesosFilesAppend(a: seq<Target>, b: seq<Target>, reachable: seq<string>)
    ensures MesosFiles(a + b, reachable) == MesosFiles(a, reachable) + MesosFiles(b, reachable)
    decreases |a|
  {
    if a != [] {
      assert (a + b)[1..] == a[1..] + b;
      MesosFilesAppend(a[1..], b, reachable);
    } else {
      assert a + b == b;
    }
  }

  // ---------------------------------------------------------------------
  // The command: `_tail`

  /** A pass over files `0 .. n - 1`: the order the jobs would complete
      in, and each file's outcome. A pass over fewer files sees the same
      order restricted to them. */
  datatype Pass = Pass(order: seq<nat>, outcome: seq<Outcome>)

  predicate PassFor(p: Pass, n: nat)
  {
    IsPermutationOf(p.order, Range(n)) && |p.outcome| == n
  }

  /** Each of `passes` is a pass over files `0 .. n - 1`. */
  predicate PassesFor(passes: seq<Pass>, n: nat)
  {
    forall k :: 0 <= k < |passes| ==> PassFor(passes[k], n)
  }

  /** The elements of `order` that are among `files`, in `order`'s order. */
  function Restrict(order: seq<nat>, files: seq<nat>): seq<nat>
    decreases |order|
  {
    if order == [] then []
    else (if order[0] in files then [order[0]] else []) + Restrict(order[1..], files)
  }

  lemma {:induction false} RestrictMember(order: seq<nat>, files: seq<nat>, x: nat)
    ensures x in Restrict(order, files) <==> x in order && x in files
    decreases |order|
  {
    if order != [] {
      RestrictMember(order[1..], files, x);
      assert order == [order[0]] + order[1..];
    }
  }

  lemma {:induction false} RestrictDistinct(order: seq<nat>, files: seq<nat>)
    requires Distinct(order)
    ensures Distinct(Restrict(order, files))
    decreases |order|
  {
    if order != [] {
      var rest := order[1..];
      DistinctTail(order);
      RestrictDistinct(rest, files);
      forall x | x in Restrict(rest, files) ensures x != order[0] {
        RestrictMember(rest, files, x);
      }
      var head := if order[0] in files then [order[0]] else [];
      assert Restrict(order, files) == head + Restrict(rest, files);
      if order[0] in files {
        DistinctCons(order[0], Restrict(rest, files));
      } else {
        assert head + Restrict(rest, files) == Restrict(rest, files);
      }
    }
  }

  /** Restricting a completion order of all files to the live ones gives
      a completion order of the live ones. */
  lemma RestrictPermutation(p: Pass, n: nat, files: seq<nat>)
    requires PassFor(p, n) && Distinct(files) && forall i :: 0 <= i < |files| ==> files[i] < n
    ensures IsPermutationOf(Restrict(p.order, files), files)
  {
    var r := Restrict(p.order, files);
    RestrictDistinct(p.order, files);
    forall i | 0 <= i < |r| ensures r[i] in files {
      RestrictMember(p.order, files, r[i]);
    }
    forall i | 0 <= i < |files| ensures files[i] in r {
      assert Range(n)[files[i]] == files[i];
      RestrictMember(p.order, files, files[i]);
    }
  }

  /** The files still live after a sequence of passes. */
  function LiveAfter(files: seq<nat>, passes: seq<Pass>): seq<nat>
    decreases |passes|
  {
    if passes == [] then files
    else Survivors(LiveAfter(files, passes[..|passes| - 1]), passes[|passes| - 1].outcome)
  }

  /** No file is live after the passes `done` and then passes `0 .. k`. */
  predicate EmptiedAt(files: seq<nat>, done: seq<Pass>, passes: seq<Pass>, k: nat)
    requires k < |passes|
  {
    LiveAfter(files, done + passes[..k + 1]) == []
  }

  /** Running the follow passes from live files `live`, some pass leaves
      no file. */
  predicate Stops(live: seq<nat>, passes: seq<Pass>)
    decreases |passes|
  {
    && passes != []
    && var next := Survivors(live, passes[0].outcome);
       next == [] || Stops(next, passes[1..])
  }

  /** The follow loop, pass by pass, stops exactly when some prefix of
      the passes leaves no file live. */
  lemma {:induction false} StopsSpec(files: seq<nat>, done: seq<Pass>, passes: seq<Pass>)
    ensures Stops(LiveAfter(files, done), passes) <==>
            exists k :: 0 <= k < |passes| && EmptiedAt(files, done, passes, k)
    decreases |passes|
  {
    if passes != [] {
      var done' := done + [passes[0]];
      assert done'[..|done'| - 1] == done;
      assert LiveAfter(files, done') == Survivors(LiveAfter(files, done), passes[0].outcome);
      StopsSpec(files, done', passes[1..]);
      assert done + passes[..1] == done';
      forall k | 0 <= k < |passes| - 1
        ensures EmptiedAt(files, done', passes[1..], k) == EmptiedAt(files, done, passes, k + 1)
      {
        assert done' + passes[1..][..k + 1] == done + passes[..k + 2];
      }
      var next := Survivors(LiveAfter(files, done), passes[0].outcome);
      if exists k :: 0 <= k < |passes| && EmptiedAt(files, done, passes, k) {
        var k :| 0 <= k < |passes| && EmptiedAt(files, done, passes, k);
        if k > 0 {
          assert EmptiedAt(files, done', passes[1..], k - 1);
        }
      }
      if Stops(LiveAfter(files, done), passes) {
        if next == [] {
          assert EmptiedAt(files, done, passes, 0);
        } else {
          var k :| 0 <= k < |passes[1..]| && EmptiedAt(files, done', passes[1..], k);
          assert EmptiedAt(files, done, passes, k + 1);
        }
      }
    }
  }

  lemma {:induction false} LiveBounded(files: seq<nat>, passes: seq<Pass>, n: nat)
    requires forall i :: 0 <= i < |files| ==> files[i] < n
    ensures forall i :: 0 <= i < |LiveAfter(files, passes)| ==> LiveAfter(files, passes)[i] < n
    ensures Distinct(files) ==> Distinct(LiveAfter(files, passes))
    decreases |passes|
  {
    if passes != [] {
      var init := passes[..|passes| - 1];
      LiveBounded(files, init, n);
      var before := LiveAfter(files, init);
      var last := passes[|passes| - 1].outcome;
      forall i | 0 <= i < |Survivors(before, last)| ensures Survivors(before, last)[i] < n {
        SurvivorsMember(before, last, Survivors(before, last)[i]);
      }
      if Distinct(files) {
        SurvivorsDistinct(before, last);
      }
    }
  }

  /** A file is live after some passes exactly when it was live before
      them and every one of them read it. */
  lemma {:induction false} LiveAfterMember(files: seq<nat>, passes: seq<Pass>, x: nat)
    ensures x in LiveAfter(files, passes) <==>
            x in files && forall k :: 0 <= k < |passes| ==> IsRead(passes[k].outcome, x)
    decreases |passes|
  {
    if passes != [] {
      var init := passes[..|passes| - 1];
      LiveAfterMember(files, init, x);
      SurvivorsMember(LiveAfter(files, init), passes[|passes| - 1].outcome, x);
      if x in files && forall k :: 0 <= k < |init| ==> IsRead(init[k].outcome, x) {
        forall k | 0 <= k < |passes| - 1 ensures IsRead(passes[k].outcome, x) {
          assert init[k] == passes[k];
        }
      }
      if forall k :: 0 <= k < |passes| ==> IsRead(passes[k].outcome, x) {
        forall k | 0 <= k < |init| ensures IsRead(init[k].outcome, x) {
          assert init[k] == passes[k];
        }
      }
    }
  }

  /** A pass keeps a set of distinct files below `n` distinct and below `n`. */
  lemma SurvivorsBounded(files: seq<nat>, outcome: seq<Outcome>, n: nat)
    requires Distinct(files) && forall i :: 0 <= i < |files| ==> files[i] < n
    ensures var r := Survivors(files, outcome);
            Distinct(r) && forall i :: 0 <= i < |r| ==> r[i] < n
  {
    var r := Survivors(files, outcome);
    SurvivorsDistinct(files, outcome);
    forall i | 0 <= i < |r| ensures r[i] < n {
      SurvivorsMember(files, outcome, r[i]);
    }
  }

  /** A restricted completion order stays below any bound of the order. */
  lemma RestrictBounded(order: seq<nat>, files: seq<nat>, n: nat)
    requires forall i :: 0 <= i < |order| ==> order[i] < n
    ensures forall i :: 0 <= i < |Restrict(order, files)| ==> Restrict(order, files)[i] < n
  {
    var r := Restrict(order, files);
    forall i | 0 <= i < |r| ensures r[i] < n {
      RestrictMember(order, files, r[i]);
    }
  }

  /** What the follow loop prints from current header `curr` and live
      files `live`: each pass runs the live files in its completion order
      and prints as `_stream_files` does, the header carried from pass to
      pass; no pass runs after the first one that leaves no file. */
  function FollowItems(headers: seq<string>, curr: Option<string>, live: seq<nat>, passes: seq<Pass>): seq<Emit>
    requires forall i :: 0 <= i < |live| ==> live[i] < |headers|
    requires PassesFor(passes, |headers|)
    decreases |passes|
  {
    if passes == [] then []
    else
      var d := PassItems(headers, curr, live, passes[0]);
      var next := Survivors(live, passes[0].outcome);
      SurvivorsBounds(live, passes[0].outcome, |headers|);
      d.0 + (if next == [] then [] else FollowItems(headers, d.1, next, passes[1..]))
  }

  /** What one pass over the live files prints, and the header it leaves
      current. */
  function PassItems(headers: seq<string>, curr: Option<string>, live: seq<nat>, p: Pass): (seq<Emit>, Option<string>)
    requires forall i :: 0 <= i < |live| ==> live[i] < |headers|
    requires PassFor(p, |headers|)
  {
    RangeBounds(p.order, |headers|);
    RestrictBounded(p.order, live, |headers|);
    Drain(curr, headers, Restrict(p.order, live), p.outcome)
  }

  /** Every survivor of a pass is one of its files. */
  lemma SurvivorsBounds(files: seq<nat>, outcome: seq<Outcome>, n: nat)
    requires forall i :: 0 <= i < |files| ==> files[i] < n
    ensures forall i :: 0 <= i < |Survivors(files, outcome)| ==> Survivors(files, outcome)[i] < n
  {
    var r := Survivors(files, outcome);
    forall i | 0 <= i < |r| ensures r[i] < n {
      SurvivorsMember(files, outcome, r[i]);
    }
  }

  /** The header current after the first pass. */
  function FirstPassHeader(headers: seq<string>, first: Pass): Option<string>
    requires PassFor(first, |headers|)
  {
    RangeBounds(first.order, |headers|);
    Drain(None, headers, first.order, first.outcome).1
  }

  /** What the follow loop prints after the first pass over every file. */
  function FollowPassItems(headers: seq<string>, first: Pass, passes: seq<Pass>): seq<Emit>
    requires PassFor(first, |headers|)
    requires PassesFor(passes, |headers|)
  {
    SurvivorsBounds(Range(|headers|), first.outcome, |headers|);
    assert [first][..0] == [];
    assert LiveAfter(Range(|headers|), [first]) == Survivors(Range(|headers|), first.outcome);
    FollowItems(headers, FirstPassHeader(headers, first), LiveAfter(Range(|headers|), [first]), passes)
  }

  /** What the first pass prints: the last-lines pass over every file. */
  function FirstPassItems(headers: seq<string>, first: Pass): seq<Emit>
    requires PassFor(first, |headers|)
  {
    RangeBounds(first.order, |headers|);
    Drain(None, headers, first.order, first.outcome).0
  }

  /** How the command ends: it printed what it had and returned, it is
      still following, or it failed with a message. */
  datatype TailResult = Finished | Following | Failed(message: string)

  /** `_tail`'s control: no files is an error before anything is read;
      one pass with the last-lines reader; then, when following, one pass
      with the rest reader per element of `passes`, failing as soon as a
      pass leaves no file. A follow run that drains `passes` is still
      following (the source loops until interrupted). */
  method Tail(headers: seq<string>, follow: bool, first: Pass, passes: seq<Pass>)
    returns (result: TailResult, emitted: seq<Emit>)
    requires PassFor(first, |headers|)
    requires PassesFor(passes, |headers|)
    ensures |headers| == 0 ==> result == Failed("No files to read.  Exiting.") && emitted == []
    ensures |headers| > 0 && !follow ==> result == Finished
    ensures |headers| > 0 ==> FirstPassItems(headers, first) <= emitted
    ensures |headers| > 0 && !follow ==> emitted == FirstPassItems(headers, first)
    ensures |headers| > 0 && follow ==>
              emitted == FirstPassItems(headers, first) + FollowPassItems(headers, first, passes)
    ensures |headers| > 0 && follow ==>
              && (result.Failed? || result.Following?)
              && (result == Failed("No files to read.  Exiting") <==>
                  Stops(LiveAfter(Range(|headers|), [first]), passes))
              && (result == Failed("No files to read.  Exiting") <==>
                  exists k :: 0 <= k < |passes| && EmptiedAt(Range(|headers|), [first], passes, k))
  {
    var n := |headers|;
    if n == 0 {
      return Failed("No files to read.  Exiting."), [];
    }
    var files := Range(n);
    assert Distinct(files);
    RangeBounds(first.order, n);
    var curr: Option<string>, live: seq<nat>, out: seq<Emit> := StreamFiles(None, headers, files, first.order, first.outcome);
    emitted := out;
    assert [first][..0] == [];
    assert live == LiveAfter(files, [first]);
    SurvivorsBounded(files, first.outcome, n);
    if !follow {
      return Finished, emitted;
    }
    StopsSpec(files, [first], passes);
    var stopped, more := Follow(headers, curr, live, passes);
    emitted := emitted + more;
    if stopped {
      return Failed("No files to read.  Exiting"), emitted;
    }
    return Following, emitted;
  }

  /** One pass of the follow loop: it prints what `_stream_files`
      prints, and the loop goes on from its survivors unless there are
      none. */
  lemma FollowStep(headers: seq<string>, header: Option<string>, files: seq<nat>, todo: seq<Pass>,
                   out: seq<Emit>, h: Option<string>)
    requires Distinct(files) && forall i :: 0 <= i < |files| ==> files[i] < |headers|
    requires PassesFor(todo, |headers|) && todo != []
    requires (out, h) == PassItems(headers, header, files, todo[0])
    ensures var next := Survivors(files, todo[0].outcome);
            && Distinct(next) && (forall i :: 0 <= i < |next| ==> next[i] < |headers|)
            && PassesFor(todo[1..], |headers|)
            && FollowItems(headers, header, files, todo) ==
               out + (if next == [] then [] else FollowItems(headers, h, next, todo[1..]))
            && (Stops(files, todo) <==> next == [] || Stops(next, todo[1..]))
  {
    SurvivorsBounded(files, todo[0].outcome, |headers|);
    assert forall k :: 0 <= k < |todo[1..]| ==> todo[1..][k] == todo[k + 1];
  }

  /** One iteration of the follow loop: `_stream_files` with the rest
      reader over the live files. */
  method FollowPass(headers: seq<string>, header: Option<string>, files: seq<nat>, todo: seq<Pass>)
    returns (h: Option<string>, next: seq<nat>, out: seq<Emit>)
    requires Distinct(files) && forall i :: 0 <= i < |files| ==> files[i] < |headers|
    requires PassesFor(todo, |headers|) && todo != []
    ensures next == Survivors(files, todo[0].outcome)
    ensures Distinct(next) && forall i :: 0 <= i < |next| ==> next[i] < |headers|
    ensures PassesFor(todo[1..], |headers|)
    ensures FollowItems(headers, header, files, todo) ==
            out + (if next == [] then [] else FollowItems(headers, h, next, todo[1..]))
    ensures Stops(files, todo) <==> next == [] || Stops(next, todo[1..])
  {
    var p := todo[0];
    assert PassFor(p, |headers|);
    RestrictPermutation(p, |headers|, files);
    h, next, out := StreamFiles(header, headers, files, Restrict(p.order, files), p.outcome);
    FollowStep(headers, header, files, todo, out, h);
  }

  /** The `while follow` loop of `_tail` from current header `curr` and
      live files `live`: one pass with the rest reader per element of
      `passes`, stopping as soon as a pass leaves no file. */
  method Follow(headers: seq<string>, curr: Option<string>, live: seq<nat>, passes: seq<Pass>)
    returns (stopped: bool, emitted: seq<Emit>)
    requires Distinct(live) && forall i :: 0 <= i < |live| ==> live[i] < |headers|
    requires PassesFor(passes, |headers|)
    ensures stopped == Stops(live, passes)
    ensures emitted == FollowItems(headers, curr, live, passes)
  {
    var n := |headers|;
    var header: Option<string>, files: seq<nat>, todo: seq<Pass> := curr, live, passes;
    emitted, stopped := [], false;
    ghost var total := FollowItems(headers, curr, live, passes);
    while todo != []
      invariant Distinct(files) && forall i :: 0 <= i < |files| ==> files[i] < n
      invariant PassesFor(todo, n)
      invariant emitted + FollowItems(headers, header, files, todo) == total
      invariant Stops(files, todo) == Stops(live, passes)
      invariant !stopped
      decreases |todo|
    {
      var next: seq<nat>, out: seq<Emit>, h: Option<string>;
      h, next, out := FollowPass(headers, header, files, todo);
      emitted := emitted + out;
      header, files, todo := h, next, todo[1..];
      if files == [] {
        stopped := true;
        break;
      }
    }
  }
}
