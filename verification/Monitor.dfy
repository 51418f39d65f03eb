/**
 * The monitor (`Pulsoid` in pagmon/__main__.py): its settings, the state it keeps between
 * polls, one pass of its polling loop and the loop itself.
 *
 * The network request and the clock are inputs: each pass of the loop is a `Tick` carrying
 * what the request returned (nothing when it failed) and the two monotonic clock readings
 * the pass makes, one when the ramp is computed and one when the window is updated.
 * The output file is modelled by its text content.
 */
module Monitor {
  import opened Wrappers
  import opened HeartRates
  import opened Smoothing
  import opened Scaling
  import opened HeartRateFile
  import opened Decimal

  /** The `Settings` options after conversion from their text. */
  datatype Settings = Settings(
    heartRateFile: string,
    pollingInterval: real,
    smoothingInterval: real,
    baseMultiplier: real,
    rampingMode: bool,
    rampingMaxMultiplier: real,
    secondsToMaxRamping: real)

  /** One pass of the polling loop: the sample fetched, if any, and the two clock readings. */
  datatype Tick = Tick(poll: Option<HeartRate>, rampClock: real, windowClock: real)

  /**
   * What the monitor carries from one pass to the next: the ramp multiplier, the smoothing
   * window, the content of the output file and the last rate fetched.
   */
  datatype RunState = RunState(rampingMultiplier: real, polls: seq<Poll>, file: string, latest: Option<int>)

  /** Whether the loop appends CSV rows rather than overwriting a single value. */
  predicate CsvMode(settings: Settings)
  {
    FileExtension(settings.heartRateFile) == "csv"
  }

  /** The clock is monotonic: no ramp reading precedes start-up. */
  predicate ClockAfterStart(startTime: real, ticks: seq<Tick>)
  {
    forall i :: 0 <= i < |ticks| ==> ticks[i].rampClock >= startTime
  }

  /**
   * One pass of the loop. A failed request changes nothing. In overwrite mode the ramp is
   * recomputed, the window updated and the scaled smoothed rate written over the file. In
   * CSV mode a row is appended only when the rate differs from the previous one fetched.
   */
  function Step(settings: Settings, startTime: real, csv: bool, s: RunState, t: Tick): RunState
    requires t.rampClock >= startTime
  {
    match t.poll
    case None => s
    case Some(hr) =>
      if !csv then
        var ramp := RampMultiplier(settings.rampingMode, settings.rampingMaxMultiplier,
                                   settings.secondsToMaxRamping, t.rampClock - startTime);
        var polls := Populated(s.polls, hr.heartRate, t.windowClock, settings.smoothingInterval);
        var value := MultipliedHeartRate(SmoothedHeartRate(polls), ramp, settings.baseMultiplier);
        RunState(ramp, polls, OverwriteContent(value), Some(hr.heartRate))
      else
        var file := if Some(hr.heartRate) != s.latest then CsvAppend(s.file, hr) else s.file;
        RunState(s.rampingMultiplier, s.polls, file, Some(hr.heartRate))
  }


  /**
   * What one pass does. A failed request changes nothing; a successful one makes its rate the
   * latest. In CSV mode the ramp and the window are untouched, and the file changes exactly when
   * the rate differs from the latest one, by keeping its content and ending with a row that
   * reads back as the sample. In overwrite mode the ramp follows the clock, the window is the old
   * one with stale entries dropped and the sample appended, and the file reads back as the
   * scaled smoothed rate of that window.
   */
  lemma StepSpec(settings: Settings, startTime: real, csv: bool, s: RunState, t: Tick)
    requires t.rampClock >= startTime
    ensures var r := Step(settings, startTime, csv, s, t);
      && (t.poll.None? ==> r == s)
      && (t.poll.Some? ==> r.latest == Some(t.poll.value.heartRate))
      && (csv ==> r.rampingMultiplier == s.rampingMultiplier && r.polls == s.polls)
      && (csv && t.poll.Some? ==> (r.file == s.file <==> s.latest == Some(t.poll.value.heartRate)))
      && (csv && t.poll.Some? && r.file != s.file ==>
            && |s.file| + |CsvRow(t.poll.value)| <= |r.file|
            && r.file[..|s.file|] == s.file
            && ParseRow(r.file[|r.file| - |CsvRow(t.poll.value)|..]) == Some(t.poll.value))
      && (!csv && t.poll.Some? ==>
            r.rampingMultiplier == RampMultiplier(settings.rampingMode, settings.rampingMaxMultiplier,
                                                  settings.secondsToMaxRamping, t.rampClock - startTime))
      && (!csv && t.poll.Some? ==>
            && |r.polls| > 0
            && r.polls == Populated(s.polls, t.poll.value.heartRate, t.windowClock, settings.smoothingInterval)
            && r.polls[|r.polls| - 1] == Poll(t.windowClock, t.poll.value.heartRate)
            && r.polls[..|r.polls| - 1] == Retained(s.polls, t.windowClock, settings.smoothingInterval)
            && IsSubsequence(r.polls[..|r.polls| - 1], s.polls)
            && (settings.smoothingInterval >= 0.0 ==>
                  forall i :: 0 <= i < |r.polls| ==> Fresh(r.polls[i], t.windowClock, settings.smoothingInterval)))
      && (!csv && t.poll.Some? ==>
            ParseInt(r.file) == Some(MultipliedHeartRate(SmoothedHeartRate(r.polls), r.rampingMultiplier, settings.baseMultiplier)))
  {
    if t.poll.Some? && csv {
      CsvRowRoundTrip(t.poll.value);
    }
  }

  /** The passes of `ticks` run one after another from `s`. */
  function RunFrom(settings: Settings, startTime: real, csv: bool, s: RunState, ticks: seq<Tick>): RunState
    requires ClockAfterStart(startTime, ticks)
  {
    if ticks == [] then s
    else
      var prefix := ticks[..|ticks| - 1];
      assert forall i :: 0 <= i < |prefix| ==> prefix[i] == ticks[i];
      Step(settings, startTime, csv, RunFrom(settings, startTime, csv, s, prefix), ticks[|ticks| - 1])
  }

  /** Running one more pass of `ticks` is one more step. */
  lemma RunFromExtend(settings: Settings, startTime: real, csv: bool, s: RunState, ticks: seq<Tick>, i: nat)
    requires ClockAfterStart(startTime, ticks) && i < |ticks|
    ensures ClockAfterStart(startTime, ticks[..i]) && ClockAfterStart(startTime, ticks[..i + 1])
    ensures ticks[i].rampClock >= startTime
    ensures RunFrom(settings, startTime, csv, s, ticks[..i + 1])
         == Step(settings, startTime, csv, RunFrom(settings, startTime, csv, s, ticks[..i]), ticks[i])
  {
    assert ticks[..i + 1][..i] == ticks[..i];
  }

  /** The passes whose request succeeded, in order. */
  function Successes(ticks: seq<Tick>): (r: seq<Tick>)
    ensures |r| <= |ticks|
    ensures forall i :: 0 <= i < |r| ==> r[i].poll.Some? && r[i] in ticks
  {
    if ticks == [] then []
    else
      var t := ticks[|ticks| - 1];
      var rest := Successes(ticks[..|ticks| - 1]);
      assert forall u :: u in ticks[..|ticks| - 1] ==> u in ticks;
      if t.poll.Some? then rest + [t] else rest
  }

  /** The samples fetched, in order. */
  function Fetched(ticks: seq<Tick>): (r: seq<HeartRate>)
    ensures |r| <= |ticks|
  {
    if ticks == [] then []
    else
      var t := ticks[|ticks| - 1];
      var rest := Fetched(ticks[..|ticks| - 1]);
      match t.poll
      case None => rest
      case Some(hr) => rest + [hr]
  }

  /** The last rate fetched, or `latest` when no sample was fetched. */
  function LastRate(hrs: seq<HeartRate>, latest: Option<int>): Option<int>
  {
    if hrs == [] then latest else Some(hrs[|hrs| - 1].heartRate)
  }

  /**
   * The samples CSV mode writes: each one whose rate differs from the one fetched just before
   * it (or from `latest`, for the first).
   */
  function Deduplicated(hrs: seq<HeartRate>, latest: Option<int>): seq<HeartRate>
  {
    if hrs == [] then []
    else
      var prefix := hrs[..|hrs| - 1];
      var hr := hrs[|hrs| - 1];
      Deduplicated(prefix, latest) + (if Some(hr.heartRate) != LastRate(prefix, latest) then [hr] else [])
  }

  /**
   * The rows CSV mode writes never repeat a rate twice in a row, the first differs from the rate
   * fetched before, every row is a fetched sample, and the last row holds the last rate fetched.
   */
  lemma {:induction false} DeduplicatedRows(hrs: seq<HeartRate>, latest: Option<int>)
    ensures var d := Deduplicated(hrs, latest);
      && |d| <= |hrs|
      && (forall i :: 0 < i < |d| ==> d[i - 1].heartRate != d[i].heartRate)
      && (d != [] ==> Some(d[0].heartRate) != latest)
      && (forall i :: 0 <= i < |d| ==> d[i] in hrs)
      && LastRate(d, latest) == LastRate(hrs, latest)
  {
    if hrs != [] {
      var prefix := hrs[..|hrs| - 1];
      var hr := hrs[|hrs| - 1];
      DeduplicatedRows(prefix, latest);
      var dp := Deduplicated(prefix, latest);
      assert forall u :: u in prefix ==> u in hrs;
      if Some(hr.heartRate) != LastRate(prefix, latest) {
        var d := dp + [hr];
        assert forall i :: 0 <= i < |dp| ==> d[i] == dp[i];
      }
    }
  }

  /** Failed requests leave no trace: running only the successful passes gives the same state. */
  lemma {:induction false} FailedPollsIgnored(settings: Settings, startTime: real, csv: bool, s: RunState, ticks: seq<Tick>)
    requires ClockAfterStart(startTime, ticks)
    ensures ClockAfterStart(startTime, Successes(ticks))
    ensures RunFrom(settings, startTime, csv, s, ticks) == RunFrom(settings, startTime, csv, s, Successes(ticks))
  {
    if ticks != [] {
      var prefix := ticks[..|ticks| - 1];
      var t := ticks[|ticks| - 1];
      assert forall i :: 0 <= i < |prefix| ==> prefix[i] == ticks[i];
      FailedPollsIgnored(settings, startTime, csv, s, prefix);
      var rest := Successes(prefix);
      if t.poll.Some? {
        assert (rest + [t])[..|rest|] == rest;
      }
    }
  }

  /**
   * A run in CSV mode never touches the ramp or the window; the file gets the header (if it was
   * empty and something is written) and then one row per deduplicated sample.
   */
  lemma {:induction false} CsvRun(settings: Settings, startTime: real, s: RunState, ticks: seq<Tick>)
    requires ClockAfterStart(startTime, ticks)
    ensures var r := RunFrom(settings, startTime, true, s, ticks);
      var written := Deduplicated(Fetched(ticks), s.latest);
      && r.rampingMultiplier == s.rampingMultiplier
      && r.polls == s.polls
      && r.latest == LastRate(Fetched(ticks), s.latest)
      && r.file == s.file + (if s.file == [] && written != [] then Header else "") + Rows(written)
  {
    CsvRunAppends(settings, startTime, s, ticks);
    CsvAppendAllContent(s.file, Deduplicated(Fetched(ticks), s.latest));
  }

  lemma {:induction false} CsvRunAppends(settings: Settings, startTime: real, s: RunState, ticks: seq<Tick>)
    requires ClockAfterStart(startTime, ticks)
    ensures RunFrom(settings, startTime, true, s, ticks)
         == RunState(s.rampingMultiplier, s.polls,
                     CsvAppendAll(s.file, Deduplicated(Fetched(ticks), s.latest)),
                     LastRate(Fetched(ticks), s.latest))
  {
    if ticks != [] {
      var prefix := ticks[..|ticks| - 1];
      var t := ticks[|ticks| - 1];
      assert forall i :: 0 <= i < |prefix| ==> prefix[i] == ticks[i];
      CsvRunAppends(settings, startTime, s, prefix);
      var before := RunFrom(settings, startTime, true, s, prefix);
      assert RunFrom(settings, startTime, true, s, ticks) == Step(settings, startTime, true, before, t);
      CsvStep(settings, startTime, before, t);
      var fetched := Fetched(prefix);
      match t.poll
      case None =>
        assert Fetched(ticks) == fetched;
      case Some(hr) =>
        assert Fetched(ticks) == fetched + [hr];
        DeduplicatedSnoc(fetched, hr, s.latest);
        var d := Deduplicated(fetched, s.latest);
        CsvAppendAllSnoc(s.file, d, hr);
        if Some(hr.heartRate) != LastRate(fetched, s.latest) {
          assert Deduplicated(Fetched(ticks), s.latest) == d + [hr];
        } else {
          assert Deduplicated(Fetched(ticks), s.latest) == d + [];
          assert d + [] == d;
        }
    }
  }

  /** One pass in CSV mode, spelled out. */
  lemma CsvStep(settings: Settings, startTime: real, s: RunState, t: Tick)
    requires t.rampClock >= startTime
    ensures Step(settings, startTime, true, s, t) == match t.poll
      case None => s
      case Some(hr) =>
        RunState(s.rampingMultiplier, s.polls,
                 if Some(hr.heartRate) != s.latest then CsvAppend(s.file, hr) else s.file,
                 Some(hr.heartRate))
  {
  }

  /** One successful pass in overwrite mode, spelled out. */
  lemma OverwriteStep(settings: Settings, startTime: real, s: RunState, t: Tick, hr: HeartRate)
    requires t.rampClock >= startTime && t.poll == Some(hr)
    ensures var ramp := RampMultiplier(settings.rampingMode, settings.rampingMaxMultiplier,
                                       settings.secondsToMaxRamping, t.rampClock - startTime);
      var polls := Populated(s.polls, hr.heartRate, t.windowClock, settings.smoothingInterval);
      Step(settings, startTime, false, s, t)
      == RunState(ramp, polls, OverwriteContent(MultipliedHeartRate(SmoothedHeartRate(polls), ramp, settings.baseMultiplier)),
                  Some(hr.heartRate))
  {
  }

  lemma DeduplicatedSnoc(hrs: seq<HeartRate>, hr: HeartRate, latest: Option<int>)
    ensures LastRate(hrs + [hr], latest) == Some(hr.heartRate)
    ensures Deduplicated(hrs + [hr], latest)
         == Deduplicated(hrs, latest) + (if Some(hr.heartRate) != LastRate(hrs, latest) then [hr] else [])
  {
    assert (hrs + [hr])[..|hrs|] == hrs;
  }

  /**
   * After a run in overwrite mode with at least one successful request, the window ends with
   * the last sample, and the file holds exactly the scaled smoothed rate of that window, readable
   * back as an integer. A run without a successful request changes nothing.
   */
  lemma {:induction false} OverwriteRun(settings: Settings, startTime: real, s: RunState, ticks: seq<Tick>)
    requires ClockAfterStart(startTime, ticks)
    ensures var r := RunFrom(settings, startTime, false, s, ticks);
      var fetched := Fetched(ticks);
      && (fetched == [] ==> r == s)
      && (fetched != [] ==>
            && r.latest == Some(fetched[|fetched| - 1].heartRate)
            && |r.polls| > 0 && r.polls[|r.polls| - 1].heartRate == fetched[|fetched| - 1].heartRate
            && ParseInt(r.file) == Some(MultipliedHeartRate(SmoothedHeartRate(r.polls), r.rampingMultiplier, settings.baseMultiplier)))
  {
    if ticks != [] {
      var prefix := ticks[..|ticks| - 1];
      var t := ticks[|ticks| - 1];
      assert forall i :: 0 <= i < |prefix| ==> prefix[i] == ticks[i];
      OverwriteRun(settings, startTime, s, prefix);
      var before := RunFrom(settings, startTime, false, s, prefix);
      assert RunFrom(settings, startTime, false, s, ticks) == Step(settings, startTime, false, before, t);
      match t.poll
      case None =>
        assert Fetched(ticks) == Fetched(prefix);
      case Some(hr) =>
        OverwriteStepReadsBack(settings, startTime, before, t, hr);
        assert Fetched(ticks) == Fetched(prefix) + [hr];
    }
  }

  /** The parts of an overwrite step that `OverwriteRun` carries along. */
  lemma OverwriteStepReadsBack(settings: Settings, startTime: real, s: RunState, t: Tick, hr: HeartRate)
    requires t.rampClock >= startTime && t.poll == Some(hr)
    ensures var r := Step(settings, startTime, false, s, t);
      && r.latest == Some(hr.heartRate)
      && |r.polls| > 0 && r.polls[|r.polls| - 1].heartRate == hr.heartRate
      && ParseInt(r.file) == Some(MultipliedHeartRate(SmoothedHeartRate(r.polls), r.rampingMultiplier, settings.baseMultiplier))
  {
    OverwriteStep(settings, startTime, s, t, hr);
  }

  /** When every request succeeds, the samples fetched are the samples returned. */
  lemma {:induction false} FetchedAllSuccessful(ticks: seq<Tick>, hrs: seq<HeartRate>)
    requires |ticks| == |hrs|
    requires forall i :: 0 <= i < |ticks| ==> ticks[i].poll == Some(hrs[i])
    ensures Fetched(ticks) == hrs
  {
    if ticks != [] {
      var n := |ticks|;
      FetchedAllSuccessful(ticks[..n - 1], hrs[..n - 1]);
      assert hrs == hrs[..n - 1] + [hrs[n - 1]];
    }
  }

  /**
   * Rates 60, 60, 62, 62, 65 fetched into an empty CSV file: the header and three rows, for
   * the first 60, the first 62 and the 65.
   */
  lemma CsvExample(settings: Settings, startTime: real, ticks: seq<Tick>)
    requires |ticks| == 5 && ClockAfterStart(startTime, ticks)
    requires ticks[0].poll == Some(HeartRate(1000, 60)) && ticks[1].poll == Some(HeartRate(2000, 60))
    requires ticks[2].poll == Some(HeartRate(3000, 62)) && ticks[3].poll == Some(HeartRate(4000, 62))
    requires ticks[4].poll == Some(HeartRate(5000, 65))
    ensures RunFrom(settings, startTime, true, RunState(1.0, [], "", None), ticks).file
         == Header + Rows([HeartRate(1000, 60), HeartRate(3000, 62), HeartRate(5000, 65)])
  {
    var h := [HeartRate(1000, 60), HeartRate(2000, 60), HeartRate(3000, 62), HeartRate(4000, 62), HeartRate(5000, 65)];
    var written := [HeartRate(1000, 60), HeartRate(3000, 62), HeartRate(5000, 65)];
    FetchedAllSuccessful(ticks, h);
    DeduplicatedExample();
    CsvRun(settings, startTime, RunState(1.0, [], "", None), ticks);
    assert [] + Header + Rows(written) == Header + Rows(written);
  }

  lemma DeduplicatedExample()
    ensures Deduplicated([HeartRate(1000, 60), HeartRate(2000, 60), HeartRate(3000, 62), HeartRate(4000, 62), HeartRate(5000, 65)], None)
         == [HeartRate(1000, 60), HeartRate(3000, 62), HeartRate(5000, 65)]
  {
    var h := [HeartRate(1000, 60), HeartRate(2000, 60), HeartRate(3000, 62), HeartRate(4000, 62), HeartRate(5000, 65)];
    assert h[..1] == [] + [h[0]];
    DeduplicatedSnoc([], h[0], None);
    assert h[..2] == h[..1] + [h[1]];
    DeduplicatedSnoc(h[..1], h[1], None);
    assert h[..3] == h[..2] + [h[2]];
    DeduplicatedSnoc(h[..2], h[2], None);
    assert h[..4] == h[..3] + [h[3]];
    DeduplicatedSnoc(h[..3], h[3], None);
    assert h == h[..4] + [h[4]];
    DeduplicatedSnoc(h[..4], h[4], None);
  }

  /** Smoothed rate 80 with ramp 2.0 and base 1.0 overwrites the file with the text "160". */
  lemma OverwriteExample()
    ensures OverwriteContent(MultipliedHeartRate(80, 2.0, 1.0)) == "160"
  {
  }

  /** The monitor object: its settings, its start time and the state it updates while polling. */
  class Pulsoid {
    const settings: Settings
    const startTime: real
    var currentRampingMultiplier: real
    var pollsWithinInterval: seq<Poll>
    /** The content of the output file named by `settings.heartRateFile`. */
    var heartRateFile: string

    /** A fresh monitor: ramp 1.0 and an empty window; `file` is what the output file holds. */
    constructor(settings: Settings, startTime: real, file: string)
      ensures this.settings == settings && this.startTime == startTime
      ensures currentRampingMultiplier == 1.0 && pollsWithinInterval == [] && heartRateFile == file
    {
      this.settings := settings;
      this.startTime := startTime;
      currentRampingMultiplier := 1.0;
      pollsWithinInterval := [];
      heartRateFile := file;
    }

    /** The monitor's state as the loop sees it, with `latest` the last rate fetched. */
    function State(latest: Option<int>): RunState
      reads this
    {
      RunState(currentRampingMultiplier, pollsWithinInterval, heartRateFile, latest)
    }

    /** The floor average of the window, between its smallest and largest rate; 0 when it is empty. */
    method GetSmoothedHeartRate() returns (smoothed: int)
      ensures smoothed == SmoothedHeartRate(pollsWithinInterval)
      ensures pollsWithinInterval == [] ==> smoothed == 0
      ensures pollsWithinInterval != [] ==>
        MinRate(pollsWithinInterval) <= smoothed <= MaxRate(pollsWithinInterval)
    {
      if |pollsWithinInterval| == 0 {
        return 0;
      }
      var totalHeartRate := Sum(pollsWithinInterval);
      smoothed := totalHeartRate / |pollsWithinInterval|;
      SmoothedHeartRateBounds(pollsWithinInterval);
    }

    /** The scaled rate: smoothed rate times ramp times base, truncated toward zero. */
    method SetMultipliedHeartRate(smoothed: int) returns (m: int)
      ensures m == MultipliedHeartRate(smoothed, currentRampingMultiplier, settings.baseMultiplier)
    {
      m := Truncate(smoothed as real * currentRampingMultiplier * settings.baseMultiplier);
    }

    /** Recomputes the ramp from the monotonic clock reading `now`. */
    method SetCurrentRampingMultiplier(now: real)
      requires now >= startTime
      modifies this`currentRampingMultiplier
      ensures currentRampingMultiplier
           == RampMultiplier(settings.rampingMode, settings.rampingMaxMultiplier, settings.secondsToMaxRamping, now - startTime)
    {
      if !settings.rampingMode {
        currentRampingMultiplier := 1.0;
        return;
      }
      var timeElapsed := now - startTime;
      if timeElapsed >= settings.secondsToMaxRamping {
        currentRampingMultiplier := settings.rampingMaxMultiplier;
        return;
      }
      var portionOfMaxRamping := timeElapsed / settings.secondsToMaxRamping;
      currentRampingMultiplier := settings.rampingMaxMultiplier * portionOfMaxRamping + 1.0;
    }

    /** Evicts the entries older than the smoothing interval at `now`, then appends the new sample. */
    method PopulatePollsWithinInterval(heartRate: int, now: real)
      modifies this`pollsWithinInterval
      ensures pollsWithinInterval == Populated(old(pollsWithinInterval), heartRate, now, settings.smoothingInterval)
    {
      pollsWithinInterval := Retained(pollsWithinInterval, now, settings.smoothingInterval);
      pollsWithinInterval := pollsWithinInterval + [Poll(now, heartRate)];
    }

    /** The extension of the output file name, which selects the output mode. */
    method GetHeartRateFileExtension() returns (ext: string)
      ensures ext == "csv" <==>
        settings.heartRateFile == "csv"
        || (|settings.heartRateFile| >= 4 && settings.heartRateFile[|settings.heartRateFile| - 4] == '.'
            && settings.heartRateFile[|settings.heartRateFile| - 3..] == "csv")
      ensures ext == FileExtension(settings.heartRateFile)
    {
      ext := FileExtension(settings.heartRateFile);
      CsvModeIff(settings.heartRateFile);
    }

    /** Overwrite mode: the file is replaced by the value in decimal. */
    method WriteHeartRate(value: int)
      modifies this`heartRateFile
      ensures heartRateFile == OverwriteContent(value)
      ensures ParseInt(heartRateFile) == Some(value)
    {
      heartRateFile := IntToString(value);
    }

    /** CSV mode: the header if the file is empty, then the sample's row, appended. */
    method WriteHeartRateCsv(hr: HeartRate)
      modifies this`heartRateFile
      ensures heartRateFile == CsvAppend(old(heartRateFile), hr)
    {
      var newFile := heartRateFile == [];
      if newFile {
        heartRateFile := heartRateFile + Header;
      }
      heartRateFile := heartRateFile + CsvRow(hr);
    }

    /**
     * One pass of the polling loop, given what the request returned and the clock readings:
     * nothing happens when the request failed; otherwise the output is updated in the chosen
     * mode and the rate becomes the latest one.
     */
    method PollOnce(t: Tick, outputFileIsCsv: bool, latest: Option<int>) returns (newLatest: Option<int>)
      requires t.rampClock >= startTime
      modifies this
      ensures State(newLatest) == Step(settings, startTime, outputFileIsCsv, old(State(latest)), t)
    {
      ghost var before := State(latest);
      newLatest := latest;
      if t.poll.None? {
        return;
      }
      var hr := t.poll.value;
      if !outputFileIsCsv {
        OverwriteStep(settings, startTime, before, t, hr);
        SetCurrentRampingMultiplier(t.rampClock);
        PopulatePollsWithinInterval(hr.heartRate, t.windowClock);
        var smoothedHr := GetSmoothedHeartRate();
        var finalHr := SetMultipliedHeartRate(smoothedHr);
        WriteHeartRate(finalHr);
        assert State(Some(hr.heartRate))
            == RunState(currentRampingMultiplier, pollsWithinInterval, OverwriteContent(finalHr), Some(hr.heartRate));
      } else {
        if Some(hr.heartRate) != latest {
          WriteHeartRateCsv(hr);
        }
        CsvStep(settings, startTime, before, t);
      }
      newLatest := Some(hr.heartRate);
    }

    /**
     * The polling loop over the passes `ticks`; returns the last rate fetched. The output mode is
     * chosen once, from the file name, before the first pass.
     */
    method Run(ticks: seq<Tick>) returns (latest: Option<int>)
      requires ClockAfterStart(startTime, ticks)
      modifies this
      ensures State(latest) == RunFrom(settings, startTime, CsvMode(settings),
                                       RunState(old(currentRampingMultiplier), old(pollsWithinInterval), old(heartRateFile), None),
                                       ticks)
    {
      var ext := GetHeartRateFileExtension();
      var outputFileIsCsv := ext == "csv";
      ghost var start := State(None);
      latest := None;
      for i := 0 to |ticks|
        invariant ClockAfterStart(startTime, ticks[..i])
        invariant State(latest) == RunFrom(settings, startTime, outputFileIsCsv, start, ticks[..i])
      {
        RunFromExtend(settings, startTime, outputFileIsCsv, start, ticks, i);
        latest := PollOnce(ticks[i], outputFileIsCsv, latest);
      }
      assert ticks[..|ticks|] == ticks;
    }
  }
}
