/** Bisecting a batch of files around the ones that crash the parser process. */
module JsIsolation {
  import opened Options
  import opened Sequences

  /** The child process: for a batch of files, the findings, or None when it fails. */
  type Child<!F, !R> = seq<F> -> Option<seq<R>>

  /** What the bisection returns, drops and costs in child runs. */
  datatype Scan<F, R> = Scan(findings: seq<R>, dropped: seq<F>, runs: nat)

  function Bisect<F, R>(child: Child<F, R>, files: seq<F>): Scan<F, R>
    decreases |files|
  {
    if files == [] then Scan([], [], 0)
    else if child(files).Some? then Scan(child(files).value, [], 1)
    else if |files| == 1 then Scan([], [files[0]], 1)
    else
      var mid := |files| / 2;
      var left, right := Bisect(child, files[..mid]), Bisect(child, files[mid..]);
      Scan(left.findings + right.findings, left.dropped + right.dropped, 1 + left.runs + right.runs)
  }

  lemma BisectSplits<F, R>(child: Child<F, R>, files: seq<F>)
    requires |files| > 1 && child(files) == None
    ensures
      var left, right := Bisect(child, files[..|files| / 2]), Bisect(child, files[|files| / 2..]);
      Bisect(child, files)
      == Scan(left.findings + right.findings, left.dropped + right.dropped, 1 + left.runs + right.runs)
  {
  }

  lemma BisectEnds<F, R>(child: Child<F, R>, files: seq<F>)
    ensures files == [] ==> Bisect(child, files) == Scan([], [], 0)
    ensures files != [] && child(files).Some? ==> Bisect(child, files) == Scan(child(files).value, [], 1)
    ensures |files| == 1 && child(files) == None ==> Bisect(child, files) == Scan([], [files[0]], 1)
  {
  }

  /** The shared list of dropped files and the number of child processes started. */
  class IsolatedScan<F, R> {
    const child: Child<F, R>
    var dropped: seq<F>
    ghost var runs: nat

    constructor (child: Child<F, R>)
      ensures this.child == child && dropped == [] && runs == 0
    {
      this.child := child;
      dropped, runs := [], 0;
    }

    /** `_scan_files_isolated` */
    method ScanFilesIsolated(files: seq<F>) returns (findings: seq<R>)
      modifies this
      ensures findings == Bisect(child, files).findings
      ensures dropped == old(dropped) + Bisect(child, files).dropped
      ensures runs == old(runs) + Bisect(child, files).runs
      decreases |files|
    {
      hide Bisect;
      BisectEnds(child, files);
      if files == [] {
        return [];
      }
      var batch := child(files);
      runs := runs + 1;
      if batch.Some? {
        return batch.value;
      }
      if |files| == 1 {
        dropped := dropped + [files[0]];
        return [];
      }
      BisectSplits(child, files);
      ghost var before := dropped;
      var mid := |files| / 2;
      var left := ScanFilesIsolated(files[..mid]);
      var right := ScanFilesIsolated(files[mid..]);
      Assoc(before, Bisect(child, files[..mid]).dropped, Bisect(child, files[mid..]).dropped);
      findings := left + right;
    }
  }

  // ---------------------------------------------------------------- crashing files

  function FindingsOf<F, R>(scan: F -> seq<R>, crashes: F -> bool, files: seq<F>): seq<R> {
    if files == [] then []
    else (if crashes(files[0]) then [] else scan(files[0])) + FindingsOf(scan, crashes, files[1..])
  }

  function CrashersOf<F>(crashes: F -> bool, files: seq<F>): seq<F> {
    if files == [] then [] else (if crashes(files[0]) then [files[0]] else []) + CrashersOf(crashes, files[1..])
  }

  /** A batch fails exactly when it contains a crashing file, and otherwise returns the findings of
      its files in order. */
  ghost predicate FailsOnCrash<F(!new), R(!new)>(child: Child<F, R>, scan: F -> seq<R>, crashes: F -> bool) {
    forall files: seq<F> ::
      child(files) == if CrashersOf(crashes, files) != [] then None else Some(FindingsOf(scan, crashes, files))
  }

  lemma {:induction false} CrashersAppend<F>(crashes: F -> bool, a: seq<F>, b: seq<F>)
    ensures CrashersOf(crashes, a + b) == CrashersOf(crashes, a) + CrashersOf(crashes, b)
  {
    if a == [] {
      assert a + b == b;
    } else {
      assert (a + b)[1..] == a[1..] + b;
      CrashersAppend(crashes, a[1..], b);
      Assoc(if crashes(a[0]) then [a[0]] else [], CrashersOf(crashes, a[1..]), CrashersOf(crashes, b));
    }
  }

  lemma {:induction false} FindingsAppend<F, R>(scan: F -> seq<R>, crashes: F -> bool, a: seq<F>, b: seq<F>)
    ensures FindingsOf(scan, crashes, a + b) == FindingsOf(scan, crashes, a) + FindingsOf(scan, crashes, b)
  {
    if a == [] {
      assert a + b == b;
    } else {
      assert (a + b)[1..] == a[1..] + b;
      FindingsAppend(scan, crashes, a[1..], b);
    }
  }

  lemma ChildAnswer<F(!new), R(!new)>(child: Child<F, R>, scan: F -> seq<R>, crashes: F -> bool, files: seq<F>)
    requires FailsOnCrash(child, scan, crashes)
    ensures child(files) == if CrashersOf(crashes, files) != [] then None else Some(FindingsOf(scan, crashes, files))
    ensures files == [] ==> CrashersOf(crashes, files) == [] && FindingsOf(scan, crashes, files) == []
  {
  }

  lemma OneFile<F, R>(scan: F -> seq<R>, crashes: F -> bool, files: seq<F>)
    requires |files| == 1
    ensures CrashersOf(crashes, files) == if crashes(files[0]) then [files[0]] else []
    ensures FindingsOf(scan, crashes, files) == if crashes(files[0]) then [] else scan(files[0])
  {
    assert files[1..] == [];
  }

  /** Exactly the crashing files are lost, in order; everything else is reported, in order. */
  lemma {:induction false} BisectLosesOnlyCrashers<F(!new), R(!new)>(child: Child<F, R>, scan: F -> seq<R>,
                                                                     crashes: F -> bool, files: seq<F>)
    requires FailsOnCrash(child, scan, crashes)
    ensures Bisect(child, files).findings == FindingsOf(scan, crashes, files)
    ensures Bisect(child, files).dropped == CrashersOf(crashes, files)
    decreases |files|
  {
    hide FailsOnCrash, Bisect, CrashersOf, FindingsOf;
    ChildAnswer(child, scan, crashes, files);
    BisectEnds(child, files);
    if |files| == 1 {
      OneFile(scan, crashes, files);
    } else if |files| > 1 && child(files) == None {
      var mid := |files| / 2;
      BisectSplits(child, files);
      BisectLosesOnlyCrashers(child, scan, crashes, files[..mid]);
      BisectLosesOnlyCrashers(child, scan, crashes, files[mid..]);
      assert files == files[..mid] + files[mid..];
      CrashersAppend(crashes, files[..mid], files[mid..]);
      FindingsAppend(scan, crashes, files[..mid], files[mid..]);
    }
  }

  // ---------------------------------------------------------------- the number of child runs

  /** The logarithm to base 2, rounded up. */
  function CeilLog2(n: nat): nat {
    if n <= 1 then 0 else 1 + CeilLog2((n + 1) / 2)
  }

  function Pow2(k: nat): nat {
    if k == 0 then 1 else 2 * Pow2(k - 1)
  }

  /** It is the least exponent whose power reaches `n`. */
  lemma {:induction false} CeilLog2IsLeast(n: nat)
    requires n >= 1
    ensures n <= Pow2(CeilLog2(n))
    ensures CeilLog2(n) > 0 ==> Pow2(CeilLog2(n) - 1) < n
    decreases n
  {
    if n > 1 {
      CeilLog2IsLeast((n + 1) / 2);
    }
  }

  lemma {:induction false} CeilLog2Grows(m: nat, n: nat)
    requires m <= n
    ensures CeilLog2(m) <= CeilLog2(n)
    decreases n
  {
    if m > 1 {
      CeilLog2Grows((m + 1) / 2, (n + 1) / 2);
    }
  }

  lemma HalfHeight(n: nat)
    requires n > 1
    ensures CeilLog2(n / 2) + 1 <= CeilLog2(n) && CeilLog2(n - n / 2) + 1 == CeilLog2(n)
  {
    assert n - n / 2 == (n + 1) / 2;
    CeilLog2Grows(n / 2, (n + 1) / 2);
  }

  lemma Product(a: nat, b: nat, x: nat, y: nat, h: nat)
    requires x <= h && y <= h && a + b >= 1
    ensures (1 + 2 * a * x) + (1 + 2 * b * y) + 1 <= 1 + 2 * (a + b) * (h + 1)
  {
    assert a * x <= a * h;
    assert b * y <= b * h;
    assert (a + b) * (h + 1) == a * h + b * h + (a + b);
  }

  /** For k crashing files among n, at most 1 + 2k * ceil(log2 n) child runs, and one when nothing
      crashes. */
  lemma {:induction false} BisectRunsAreBounded<F(!new), R(!new)>(child: Child<F, R>, scan: F -> seq<R>,
                                                                  crashes: F -> bool, files: seq<F>)
    requires FailsOnCrash(child, scan, crashes)
    ensures Bisect(child, files).runs <= 1 + 2 * |CrashersOf(crashes, files)| * CeilLog2(|files|)
    ensures files != [] && CrashersOf(crashes, files) == [] ==> Bisect(child, files).runs == 1
    decreases |files|
  {
    hide FailsOnCrash, Bisect, CrashersOf, FindingsOf, CeilLog2;
    ChildAnswer(child, scan, crashes, files);
    BisectEnds(child, files);
    if |files| > 1 && child(files) == None {
      var mid := |files| / 2;
      var left, right := files[..mid], files[mid..];
      BisectSplits(child, files);
      BisectRunsAreBounded(child, scan, crashes, left);
      BisectRunsAreBounded(child, scan, crashes, right);
      assert files == left + right;
      CrashersAppend(crashes, left, right);
      HalfHeight(|files|);
      Product(|CrashersOf(crashes, left)|, |CrashersOf(crashes, right)|, CeilLog2(|left|), CeilLog2(|right|),
              CeilLog2(|files|) - 1);
    } else {
      assert 2 * |CrashersOf(crashes, files)| * CeilLog2(|files|) >= 0;
    }
  }

  // ---------------------------------------------------------------- any child process

  /** The files of a list cut into consecutive batches. */
  function Concat<F>(batches: seq<seq<F>>): seq<F> {
    if batches == [] then [] else batches[0] + Concat(batches[1..])
  }

  /** Whatever makes a batch fail, the bisection cuts the files into consecutive batches that were
      scanned as a whole and single files that failed on their own. */
  ghost predicate Accounted<F(!new), R(!new)>(child: Child<F, R>, batches: seq<seq<F>>, findings: seq<R>,
                                              dropped: seq<F>) {
    if batches == [] then findings == [] && dropped == []
    else if child(batches[0]).Some? then
      var out := child(batches[0]).value;
      out <= findings && Accounted(child, batches[1..], findings[|out|..], dropped)
    else
      |batches[0]| == 1 && dropped != [] && dropped[0] == batches[0][0]
          && Accounted(child, batches[1..], findings, dropped[1..])
  }

  lemma {:induction false} ConcatAppend<F>(a: seq<seq<F>>, b: seq<seq<F>>)
    ensures Concat(a + b) == Concat(a) + Concat(b)
  {
    if a == [] {
      assert a + b == b;
    } else {
      assert (a + b)[1..] == a[1..] + b;
      ConcatAppend(a[1..], b);
      Assoc(a[0], Concat(a[1..]), Concat(b));
    }
  }

  lemma {:induction false} AccountedAppend<F(!new), R(!new)>(child: Child<F, R>, a: seq<seq<F>>, b: seq<seq<F>>,
                                                             f: seq<R>, g: seq<R>, d: seq<F>, e: seq<F>)
    requires Accounted(child, a, f, d) && Accounted(child, b, g, e)
    ensures Accounted(child, a + b, f + g, d + e)
    decreases |a|
  {
    if a == [] {
      assert a + b == b && f + g == g && d + e == e;
    } else {
      assert (a + b)[1..] == a[1..] + b;
      if child(a[0]).Some? {
        var n := |child(a[0]).value|;
        AccountedAppend(child, a[1..], b, f[n..], g, d, e);
        assert (f + g)[n..] == f[n..] + g && (f + g)[..n] == f[..n];
      } else {
        AccountedAppend(child, a[1..], b, f, g, d[1..], e);
        assert (d + e)[1..] == d[1..] + e;
      }
    }
  }

  lemma {:induction false} NoFileIsForgotten<F(!new), R(!new)>(child: Child<F, R>, files: seq<F>)
      returns (batches: seq<seq<F>>)
    ensures Concat(batches) == files
    ensures Accounted(child, batches, Bisect(child, files).findings, Bisect(child, files).dropped)
    decreases |files|
  {
    if files == [] {
      batches := [];
    } else if child(files).Some? || |files| == 1 {
      batches := [files];
      assert batches[1..] == [] && files + [] == files;
    } else {
      var mid := |files| / 2;
      var left := NoFileIsForgotten(child, files[..mid]);
      var right := NoFileIsForgotten(child, files[mid..]);
      batches := left + right;
      var l, r := Bisect(child, files[..mid]), Bisect(child, files[mid..]);
      ConcatAppend(left, right);
      AccountedAppend(child, left, right, l.findings, r.findings, l.dropped, r.dropped);
      assert files == files[..mid] + files[mid..];
    }
  }
}
