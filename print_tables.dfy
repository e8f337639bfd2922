/** The formatting switches of the build file printer's golden tests: the
    tables package's global flags, which testIdempotence sets from a test
    file's name and resets after printing it, and TestPrintGolden's two passes
    over the golden files. Printing itself (testPrint) is recorded, not
    modelled: each call appends the file and the switches it ran under. */
module PrintTables {

  /** strings.Contains: sub occurs somewhere in s. */
  predicate Contains(s: string, sub: string)
    decreases |s|
  {
    |sub| <= |s| && (s[..|sub|] == sub || Contains(s[1..], sub))
  }

  /** Contains means there is an index where sub occurs. */
  lemma {:induction false} ContainsIffOccurs(s: string, sub: string)
    ensures Contains(s, sub) <==> exists i :: OccursAt(s, sub, i)
    decreases |s|
  {
    if |sub| <= |s| && s[..|sub|] != sub {
      ContainsIffOccurs(s[1..], sub);
      if exists i :: OccursAt(s[1..], sub, i) {
        var i :| OccursAt(s[1..], sub, i);
        assert s[i + 1..i + 1 + |sub|] == s[1..][i..i + |sub|];
        assert OccursAt(s, sub, i + 1);
      }
      if exists i :: OccursAt(s, sub, i) {
        var i :| OccursAt(s, sub, i);
        assert i != 0;
        assert s[1..][i - 1..i - 1 + |sub|] == s[i..i + |sub|];
        assert OccursAt(s[1..], sub, i - 1);
      }
    } else if |sub| <= |s| {
      assert OccursAt(s, sub, 0);
    }
  }

  predicate OccursAt(s: string, sub: string, i: int)
  {
    0 <= i <= |s| - |sub| && s[i..i + |sub|] == sub
  }

  /** strings.HasSuffix */
  predicate HasSuffix(s: string, suffix: string)
  {
    |suffix| <= |s| && s[|s| - |suffix|..] == suffix
  }

  const GoldenSuffix: string := ".golden"
  /** A file name containing this is printed with StripLabelLeadingSlashes. */
  const StripSlashesMarker: string := ".stripslashes."
  /** Test 050 is printed with ShortenAbsoluteLabelsToRelative. */
  const ShortenMarker: string := "/050."
  /** The suffix of the special .bzl golden counterpart of a test. */
  const BzlGoldenSuffix: string := ".formatbzl.golden"

  /** out[:len(out)-len(".golden")]; every name findTests returns ends in
      ".golden", so the slice is in range there. */
  function GoldenPrefix(out: string): (r: string)
    ensures HasSuffix(out, GoldenSuffix) ==> out == r + GoldenSuffix
  {
    if |out| < |GoldenSuffix| then out else out[..|out| - |GoldenSuffix|]
  }

  /** exists(prefix + ".formatbzl.golden"), the file system being the set of
      existing names. */
  predicate HasBzlCounterpart(out: string, existing: set<string>)
  {
    GoldenPrefix(out) + BzlGoldenSuffix in existing
  }

  /** One call of testPrint on a file, and the switches it ran under. */
  datatype PrintRun = PrintRun(file: string, stripLabelLeadingSlashes: bool,
                               shortenAbsoluteLabelsToRelative: bool, formatBzlFiles: bool)

  /** The run testIdempotence makes of a file when it is entered with the
      given switches: a switch is on if it already was or the name asks for it. */
  function RunOf(file: string, strip: bool, shorten: bool, formatBzl: bool): PrintRun
  {
    PrintRun(file, strip || Contains(file, StripSlashesMarker),
             shorten || Contains(file, ShortenMarker), formatBzl)
  }

  /** The runs testIdempotence makes over files, one after the other, the
      first entered with the given switches and each later one with both
      switches as the previous call left them. */
  function IdempotenceRuns(files: seq<string>, strip: bool, shorten: bool, formatBzl: bool): (r: seq<PrintRun>)
    ensures |r| == |files|
  {
    if |files| == 0 then []
    else
      var n := |files| - 1;
      IdempotenceRuns(files[..n], strip, shorten, formatBzl)
        + [RunOf(files[n], strip && n == 0, shorten && n == 0, formatBzl)]
  }

  /** Run k prints files[k]; only the first run can inherit a switch, and
      every later run sees the switches its own file name asks for: nothing
      set for one file leaks into the next. */
  lemma {:induction false} IdempotenceRunsAt(files: seq<string>, strip: bool, shorten: bool, formatBzl: bool)
    ensures forall k :: 0 <= k < |files| ==>
              IdempotenceRuns(files, strip, shorten, formatBzl)[k]
              == RunOf(files[k], strip && k == 0, shorten && k == 0, formatBzl)
    decreases |files|
  {
    if |files| > 0 {
      var n := |files| - 1;
      IdempotenceRunsAt(files[..n], strip, shorten, formatBzl);
      forall k | 0 <= k < n
        ensures IdempotenceRuns(files, strip, shorten, formatBzl)[k]
                == RunOf(files[k], strip && k == 0, shorten && k == 0, formatBzl)
      {
        assert files[..n][k] == files[k];
      }
    }
  }

  /** The golden files of the second pass of TestPrintGolden, in order: those
      without a ".formatbzl.golden" counterpart. */
  function WithoutBzlCounterpart(outs: seq<string>, existing: set<string>): (r: seq<string>)
    ensures |r| <= |outs|
  {
    if |outs| == 0 then []
    else
      var n := |outs| - 1;
      WithoutBzlCounterpart(outs[..n], existing)
        + (if HasBzlCounterpart(outs[n], existing) then [] else [outs[n]])
  }

  /** The second pass prints exactly the golden files that have no .bzl
      counterpart. */
  lemma {:induction false} WithoutBzlCounterpartMembers(outs: seq<string>, existing: set<string>)
    ensures forall x :: x in WithoutBzlCounterpart(outs, existing)
                        <==> x in outs && !HasBzlCounterpart(x, existing)
    decreases |outs|
  {
    if |outs| > 0 {
      var n := |outs| - 1;
      WithoutBzlCounterpartMembers(outs[..n], existing);
      assert outs == outs[..n] + [outs[n]];
    }
  }

  /** The runs of the second pass of TestPrintGolden, file by file: none for a
      file with a .bzl counterpart, one with reset switches for the others. */
  function SecondPassRuns(outs: seq<string>, existing: set<string>, formatBzl: bool): (r: seq<PrintRun>)
    ensures |r| <= |outs|
  {
    if |outs| == 0 then []
    else
      var n := |outs| - 1;
      SecondPassRuns(outs[..n], existing, formatBzl)
        + (if HasBzlCounterpart(outs[n], existing) then [] else [RunOf(outs[n], false, false, formatBzl)])
  }

  /** One more file in testIdempotence's loop appends one run. */
  lemma IdempotenceRunsStep(files: seq<string>, i: int, strip: bool, shorten: bool, formatBzl: bool)
    requires 0 <= i < |files|
    ensures IdempotenceRuns(files[..i + 1], strip, shorten, formatBzl)
            == IdempotenceRuns(files[..i], strip, shorten, formatBzl)
               + [RunOf(files[i], strip && i == 0, shorten && i == 0, formatBzl)]
  {
    assert files[..i + 1][..i] == files[..i];
  }

  /** One more file in the second loop appends its run unless it has a .bzl
      counterpart. */
  lemma SecondPassRunsStep(outs: seq<string>, i: int, existing: set<string>, formatBzl: bool)
    requires 0 <= i < |outs|
    ensures SecondPassRuns(outs[..i + 1], existing, formatBzl)
            == SecondPassRuns(outs[..i], existing, formatBzl)
               + (if HasBzlCounterpart(outs[i], existing) then []
                  else [RunOf(outs[i], false, false, formatBzl)])
  {
    assert outs[..i + 1][..i] == outs[..i];
  }

  lemma ConcatAssoc(a: seq<PrintRun>, b: seq<PrintRun>, c: seq<PrintRun>)
    ensures (a + b) + c == a + (b + c)
  {
  }

  /** The second pass is testIdempotence over the files without a .bzl
      counterpart. */
  lemma {:induction false} SecondPassRunsFiltered(outs: seq<string>, existing: set<string>, formatBzl: bool)
    ensures SecondPassRuns(outs, existing, formatBzl)
            == IdempotenceRuns(WithoutBzlCounterpart(outs, existing), false, false, formatBzl)
    decreases |outs|
  {
    if |outs| > 0 {
      var n := |outs| - 1;
      SecondPassRunsFiltered(outs[..n], existing, formatBzl);
      var second := WithoutBzlCounterpart(outs[..n], existing);
      assert outs[..n] + [outs[n]] == outs;
      if HasBzlCounterpart(outs[n], existing) {
        assert WithoutBzlCounterpart(outs, existing) == second;
      } else {
        var grown := second + [outs[n]];
        assert WithoutBzlCounterpart(outs, existing) == grown;
        assert grown[..|second|] == second && grown[|second|] == outs[n];
        assert IdempotenceRuns(grown, false, false, formatBzl)
               == IdempotenceRuns(second, false, false, formatBzl) + [RunOf(outs[n], false, false, formatBzl)];
      }
    }
  }

  /** The runs of TestPrintGolden: every golden file under the switches it
      started with, then the files without a .bzl counterpart with
      FormatBzlFiles set. */
  function GoldenRuns(outs: seq<string>, existing: set<string>, strip: bool, shorten: bool, formatBzl: bool): seq<PrintRun>
  {
    IdempotenceRuns(outs, strip, shorten, formatBzl) + SecondPassRuns(outs, existing, true)
  }

  /** A run of the second pass: a golden file without a .bzl counterpart,
      printed with .bzl formatting and the switches its own name asks for. */
  predicate BzlPassRun(outs: seq<string>, existing: set<string>, run: PrintRun)
  {
    run.formatBzlFiles && run.file in outs && !HasBzlCounterpart(run.file, existing)
    && run == RunOf(run.file, false, false, true)
  }

  /** In TestPrintGolden started from reset switches, the first pass prints
      every golden file in order without .bzl formatting, and the second pass
      prints only files without a .bzl counterpart, each with .bzl formatting;
      every run's other switches follow its own file name. */
  lemma GoldenRunsFromReset(outs: seq<string>, existing: set<string>)
    ensures var runs := GoldenRuns(outs, existing, false, false, false);
            && (forall k :: 0 <= k < |outs| ==> runs[k] == RunOf(outs[k], false, false, false))
            && (forall k :: |outs| <= k < |runs| ==> BzlPassRun(outs, existing, runs[k]))
  {
    var first := IdempotenceRuns(outs, false, false, false);
    var later := SecondPassRuns(outs, existing, true);
    IdempotenceRunsAt(outs, false, false, false);
    SecondPassFromReset(outs, existing);
    var runs := first + later;
    assert runs == GoldenRuns(outs, existing, false, false, false);
    assert forall k :: 0 <= k < |outs| ==> runs[k] == first[k];
    assert forall k :: |outs| <= k < |runs| ==> runs[k] == later[k - |outs|];
  }

  /** Every run of the second pass is a BzlPassRun. */
  lemma SecondPassFromReset(outs: seq<string>, existing: set<string>)
    ensures forall r :: r in SecondPassRuns(outs, existing, true) ==> BzlPassRun(outs, existing, r)
  {
    var second := WithoutBzlCounterpart(outs, existing);
    SecondPassRunsFiltered(outs, existing, true);
    IdempotenceRunsAt(second, false, false, true);
    WithoutBzlCounterpartMembers(outs, existing);
    var later := SecondPassRuns(outs, existing, true);
    forall r | r in later ensures BzlPassRun(outs, existing, r) {
      var k :| 0 <= k < |later| && later[k] == r;
      assert later[k] == RunOf(second[k], false, false, true);
      assert second[k] in second;
    }
  }

  /** The global switches of the tables package, and the log of testPrint
      calls made under them. */
  class Tables {
    var stripLabelLeadingSlashes: bool
    var shortenAbsoluteLabelsToRelative: bool
    var formatBzlFiles: bool
    var runs: seq<PrintRun>

    constructor ()
      ensures !stripLabelLeadingSlashes && !shortenAbsoluteLabelsToRelative && !formatBzlFiles
      ensures runs == []
    {
      stripLabelLeadingSlashes := false;
      shortenAbsoluteLabelsToRelative := false;
      formatBzlFiles := false;
      runs := [];
    }

    /** testPrint(t, file, file, false), as far as the switches go. */
    method TestPrint(file: string)
      modifies this
      ensures stripLabelLeadingSlashes == old(stripLabelLeadingSlashes)
      ensures shortenAbsoluteLabelsToRelative == old(shortenAbsoluteLabelsToRelative)
      ensures formatBzlFiles == old(formatBzlFiles)
      ensures runs == old(runs) + [PrintRun(file, stripLabelLeadingSlashes, shortenAbsoluteLabelsToRelative, formatBzlFiles)]
    {
      runs := runs + [PrintRun(file, stripLabelLeadingSlashes, shortenAbsoluteLabelsToRelative, formatBzlFiles)];
    }

    /** testIdempotence: set the switches the file name asks for, print, and
        reset both switches whatever the name was. */
    method TestIdempotence(file: string)
      modifies this
      ensures !stripLabelLeadingSlashes && !shortenAbsoluteLabelsToRelative
      ensures formatBzlFiles == old(formatBzlFiles)
      ensures runs == old(runs) + [RunOf(file, old(stripLabelLeadingSlashes),
                                         old(shortenAbsoluteLabelsToRelative), old(formatBzlFiles))]
    {
      if Contains(file, StripSlashesMarker) {
        stripLabelLeadingSlashes := true;
      }
      if Contains(file, ShortenMarker) {
        shortenAbsoluteLabelsToRelative := true;
      }
      TestPrint(file);
      stripLabelLeadingSlashes := false;
      shortenAbsoluteLabelsToRelative := false;
    }

    /** The first loop of TestPrintGolden: testIdempotence over files, in order. */
    method TestAll(files: seq<string>)
      modifies this
      ensures |files| > 0 ==> !stripLabelLeadingSlashes && !shortenAbsoluteLabelsToRelative
      ensures |files| == 0 ==> stripLabelLeadingSlashes == old(stripLabelLeadingSlashes)
                               && shortenAbsoluteLabelsToRelative == old(shortenAbsoluteLabelsToRelative)
      ensures formatBzlFiles == old(formatBzlFiles)
      ensures runs == old(runs) + IdempotenceRuns(files, old(stripLabelLeadingSlashes),
                                                  old(shortenAbsoluteLabelsToRelative), old(formatBzlFiles))
    {
      ghost var strip0, shorten0, runs0 := stripLabelLeadingSlashes, shortenAbsoluteLabelsToRelative, runs;
      var i := 0;
      while i < |files|
        invariant i <= |files|
        invariant formatBzlFiles == old(formatBzlFiles)
        invariant stripLabelLeadingSlashes == (strip0 && i == 0)
        invariant shortenAbsoluteLabelsToRelative == (shorten0 && i == 0)
        invariant runs == runs0 + IdempotenceRuns(files[..i], strip0, shorten0, formatBzlFiles)
      {
        TestIdempotence(files[i]);
        IdempotenceRunsStep(files, i, strip0, shorten0, formatBzlFiles);
        ConcatAssoc(runs0, IdempotenceRuns(files[..i], strip0, shorten0, formatBzlFiles),
                    [RunOf(files[i], strip0 && i == 0, shorten0 && i == 0, formatBzlFiles)]);
        i := i + 1;
      }
      assert files[..i] == files;
    }

    /** The second loop of TestPrintGolden: testIdempotence on every golden
        file without a ".formatbzl.golden" counterpart. */
    method TestWithoutBzlCounterpart(outs: seq<string>, existing: set<string>)
      requires !stripLabelLeadingSlashes && !shortenAbsoluteLabelsToRelative
      modifies this
      ensures !stripLabelLeadingSlashes && !shortenAbsoluteLabelsToRelative
      ensures formatBzlFiles == old(formatBzlFiles)
      ensures runs == old(runs) + SecondPassRuns(outs, existing, formatBzlFiles)
    {
      ghost var runs0 := runs;
      var i := 0;
      while i < |outs|
        invariant i <= |outs|
        invariant formatBzlFiles == old(formatBzlFiles)
        invariant !stripLabelLeadingSlashes && !shortenAbsoluteLabelsToRelative
        invariant runs == runs0 + SecondPassRuns(outs[..i], existing, formatBzlFiles)
      {
        TestUnlessBzlCounterpart(outs[i], existing);
        SecondPassRunsStep(outs, i, existing, formatBzlFiles);
        ConcatAssoc(runs0, SecondPassRuns(outs[..i], existing, formatBzlFiles),
                    if HasBzlCounterpart(outs[i], existing) then []
                    else [RunOf(outs[i], false, false, formatBzlFiles)]);
        i := i + 1;
      }
      assert outs[..i] == outs;
    }

    /** One step of the second loop: skip a file with a .bzl counterpart,
        testIdempotence the others. */
    method TestUnlessBzlCounterpart(out: string, existing: set<string>)
      requires !stripLabelLeadingSlashes && !shortenAbsoluteLabelsToRelative
      modifies this
      ensures !stripLabelLeadingSlashes && !shortenAbsoluteLabelsToRelative
      ensures formatBzlFiles == old(formatBzlFiles)
      ensures runs == old(runs) + (if HasBzlCounterpart(out, existing) then []
                                   else [RunOf(out, false, false, formatBzlFiles)])
    {
      var prefix := GoldenPrefix(out);
      if prefix + BzlGoldenSuffix !in existing {
        TestIdempotence(out);
      }
    }

    /** TestPrintGolden over the golden files findTests found. With none,
        findTests stops the test (fatal) before anything runs. */
    method TestPrintGolden(outs: seq<string>, existing: set<string>) returns (fatal: bool)
      requires forall k :: 0 <= k < |outs| ==> HasSuffix(outs[k], GoldenSuffix)
      modifies this
      ensures fatal <==> |outs| == 0
      ensures fatal ==> unchanged(this)
      ensures !fatal ==> !stripLabelLeadingSlashes && !shortenAbsoluteLabelsToRelative && !formatBzlFiles
      ensures !fatal ==> runs == old(runs) + GoldenRuns(outs, existing, old(stripLabelLeadingSlashes),
                                                         old(shortenAbsoluteLabelsToRelative), old(formatBzlFiles))
    {
      if |outs| == 0 {
        return true;
      }
      fatal := false;
      ghost var first := IdempotenceRuns(outs, stripLabelLeadingSlashes,
                                         shortenAbsoluteLabelsToRelative, formatBzlFiles);
      ghost var second := SecondPassRuns(outs, existing, true);
      ghost var runs0 := runs;
      assert GoldenRuns(outs, existing, stripLabelLeadingSlashes, shortenAbsoluteLabelsToRelative,
                        formatBzlFiles) == first + second;
      TestAll(outs);
      ghost var runs1 := runs;
      assert runs1 == runs0 + first;
      formatBzlFiles := true;
      TestWithoutBzlCounterpart(outs, existing);
      ConcatAssoc(runs0, first, second);
      formatBzlFiles := false;
    }
  }
}
