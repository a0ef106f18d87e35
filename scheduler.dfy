/** The alarm decision the one-second timer makes (App.tsx:76-92): format the
    clock as `HH:mm`, skip the minute that already rang, otherwise pick the
    first active medication due at that minute. The timer itself is a
    sequence of calls; `RunTicks` replays such a sequence. */
module Scheduler {
  import opened Types
  import opened TimeFormat
  import MedList

  /** The medication is due at this clock string and switched on. An
      inactive medication is never due, and a due medication's time is the
      clock string itself, so it is well formed exactly when the clock
      string is. */
  predicate Fires(m: Medication, currentTime: string): (due: bool)
    ensures !m.active ==> !due
    ensures due ==> m.time == currentTime && (IsHHmm(m.time) <==> IsHHmm(currentTime))
  {
    m.active && m.time == currentTime
  }

  /** `meds.find(m => m.active && m.time === currentTime)`: some active
      medication of the list due now, and nothing only when none is due. */
  function FindTrigger(meds: seq<Medication>, currentTime: string): (r: Option<Medication>)
    ensures r.None? <==> forall i :: 0 <= i < |meds| ==> !Fires(meds[i], currentTime)
    ensures r.Some? ==> r.value in meds && Fires(r.value, currentTime)
  {
    if meds == [] then None
    else if Fires(meds[0], currentTime) then Some(meds[0])
    else
      var r := FindTrigger(meds[1..], currentTime);
      assert forall i :: 1 <= i < |meds| ==> meds[i] == meds[1..][i - 1];
      r
  }

  /** The first due medication wins: whatever is due at index k is selected
      when nothing before k is due. */
  lemma {:induction false} FirstMatchWins(meds: seq<Medication>, currentTime: string, k: nat)
    requires k < |meds| && Fires(meds[k], currentTime)
    requires forall j :: 0 <= j < k ==> !Fires(meds[j], currentTime)
    ensures FindTrigger(meds, currentTime) == Some(meds[k])
  {
    if k > 0 {
      assert forall j :: 0 <= j < k - 1 ==> meds[1..][j] == meds[j + 1];
      FirstMatchWins(meds[1..], currentTime, k - 1);
    }
  }

  /** An earlier part of the list always wins over a later one: the search
      over a concatenation looks at the tail only when the head has nothing
      due. In particular appending a medication never takes an alarm away
      from one already in the list. */
  lemma {:induction false} FindTriggerAppend(a: seq<Medication>, b: seq<Medication>, currentTime: string)
    ensures FindTrigger(a + b, currentTime) ==
      if FindTrigger(a, currentTime).Some? then FindTrigger(a, currentTime) else FindTrigger(b, currentTime)
  {
    if a == [] {
      assert a + b == b;
    } else {
      assert (a + b)[1..] == a[1..] + b;
      FindTriggerAppend(a[1..], b, currentTime);
    }
  }

  /** Of two medications due at the same minute only the earlier side rings:
      the one selected comes from before index j, so with unique ids the
      medication at j is skipped for that minute. */
  lemma LaterSameTimeSkipped(meds: seq<Medication>, currentTime: string, i: nat, j: nat)
    requires i < j < |meds| && Fires(meds[i], currentTime) && Fires(meds[j], currentTime)
    ensures FindTrigger(meds, currentTime).Some?
    ensures FindTrigger(meds, currentTime).value in meds[..j]
    ensures MedList.UniqueIds(meds) ==> FindTrigger(meds, currentTime) != Some(meds[j])
  {
    assert meds == meds[..j] + meds[j..];
    assert meds[..j][i] == meds[i];
    FindTriggerAppend(meds[..j], meds[j..], currentTime);
  }

  /** One tick's decision (App.tsx:81-83): the medication to ring for, if any.
      It rings only when this minute has not rung yet and an active
      medication is due; what rings is always an active list member due now. */
  function Evaluate(currentTime: string, meds: seq<Medication>, lastAlarm: Option<string>): (r: Option<Medication>)
    ensures r.Some? <==> lastAlarm != Some(currentTime) && exists i :: 0 <= i < |meds| && Fires(meds[i], currentTime)
    ensures r.Some? ==> r.value in meds && r.value.active && r.value.time == currentTime
  {
    if lastAlarm == Some(currentTime) then None else FindTrigger(meds, currentTime)
  }

  /** The last-alarm marker after a tick: the current minute when it rang,
      otherwise unchanged (never cleared). */
  function NextMarker(currentTime: string, meds: seq<Medication>, lastAlarm: Option<string>): (r: Option<string>)
    ensures r == lastAlarm || r == Some(currentTime)
    ensures r == Some(currentTime) <==> lastAlarm == Some(currentTime) || Evaluate(currentTime, meds, lastAlarm).Some?
  {
    if Evaluate(currentTime, meds, lastAlarm).Some? then Some(currentTime) else lastAlarm
  }

  /** The alarms a run of ticks raises, in order, while the list stays the
      same; each is an active medication of the list. */
  function RunTicks(meds: seq<Medication>, lastAlarm: Option<string>, times: seq<string>): (fired: seq<Medication>)
    ensures |fired| <= |times|
    ensures forall m :: m in fired ==> m in meds && m.active
    decreases |times|
  {
    if times == [] then []
    else
      var e := Evaluate(times[0], meds, lastAlarm);
      (if e.Some? then [e.value] else []) + RunTicks(meds, NextMarker(times[0], meds, lastAlarm), times[1..])
  }

  /** The marker a run of ticks leaves behind: the one it started from, or
      the clock string of a tick of the run at which a medication was due. */
  function MarkerAfter(meds: seq<Medication>, lastAlarm: Option<string>, times: seq<string>): (r: Option<string>)
    ensures r == lastAlarm ||
      exists i :: 0 <= i < |times| && r == Some(times[i]) && FindTrigger(meds, times[i]).Some?
    decreases |times|
  {
    if times == [] then lastAlarm
    else
      var r := MarkerAfter(meds, NextMarker(times[0], meds, lastAlarm), times[1..]);
      assert forall j :: 0 <= j < |times| - 1 ==> times[1..][j] == times[j + 1];
      r
  }

  /** A run can be cut anywhere: the second part starts from the marker the
      first part leaves. */
  lemma {:induction false} RunSplit(meds: seq<Medication>, lastAlarm: Option<string>, a: seq<string>, b: seq<string>)
    ensures RunTicks(meds, lastAlarm, a + b) ==
      RunTicks(meds, lastAlarm, a) + RunTicks(meds, MarkerAfter(meds, lastAlarm, a), b)
    ensures MarkerAfter(meds, lastAlarm, a + b) == MarkerAfter(meds, MarkerAfter(meds, lastAlarm, a), b)
    decreases |a|
  {
    if a == [] {
      assert a + b == b;
    } else {
      var ab := a + b;
      assert ab[0] == a[0] && ab[1..] == a[1..] + b;
      var marker := NextMarker(a[0], meds, lastAlarm);
      var e := Evaluate(a[0], meds, lastAlarm);
      var head := if e.Some? then [e.value] else [];
      RunSplit(meds, marker, a[1..], b);
      calc {
        RunTicks(meds, lastAlarm, ab);
        head + RunTicks(meds, marker, ab[1..]);
        head + (RunTicks(meds, marker, a[1..]) + RunTicks(meds, MarkerAfter(meds, marker, a[1..]), b));
        (head + RunTicks(meds, marker, a[1..])) + RunTicks(meds, MarkerAfter(meds, marker, a[1..]), b);
      }
    }
  }

  /** Once a minute has rung, further ticks in that minute ring nothing and
      keep the marker. */
  lemma {:induction false} QuietAfterRinging(meds: seq<Medication>, t: string, times: seq<string>)
    requires forall i :: 0 <= i < |times| ==> times[i] == t
    ensures RunTicks(meds, Some(t), times) == []
    ensures MarkerAfter(meds, Some(t), times) == Some(t)
    decreases |times|
  {
    if times != [] {
      QuietAfterRinging(meds, t, times[1..]);
    }
  }

  /** No duplicate alarms within a minute: any number of ticks at the same
      clock string ring at most once, and exactly once when the first of them
      finds a medication due. */
  lemma {:induction false} SameMinuteRingsAtMostOnce(meds: seq<Medication>, lastAlarm: Option<string>, t: string, times: seq<string>)
    requires forall i :: 0 <= i < |times| ==> times[i] == t
    ensures |RunTicks(meds, lastAlarm, times)| <= 1
    ensures |RunTicks(meds, lastAlarm, times)| == 1 <==> times != [] && Evaluate(t, meds, lastAlarm).Some?
    ensures MarkerAfter(meds, lastAlarm, times) == if times != [] && Evaluate(t, meds, lastAlarm).Some? then Some(t) else lastAlarm
    decreases |times|
  {
    if times != [] {
      if Evaluate(t, meds, lastAlarm).Some? {
        QuietAfterRinging(meds, t, times[1..]);
      } else {
        SameMinuteRingsAtMostOnce(meds, lastAlarm, t, times[1..]);
      }
    }
  }

  /** Re-arming across minutes: after any number of ticks at minute t1, the
      first tick of a different minute t2 rings the first medication due at
      t2, even if t1 rang and its alarm is still open. */
  lemma ReArmsNextMinute(meds: seq<Medication>, lastAlarm: Option<string>, t1: string, t2: string, n: nat)
    requires t1 != t2 && lastAlarm != Some(t2)
    requires FindTrigger(meds, t2).Some?
    ensures var fired := RunTicks(meds, lastAlarm, seq(n, _ => t1) + [t2]);
      |fired| >= 1 && fired[|fired| - 1] == FindTrigger(meds, t2).value
  {
    var a := seq(n, _ => t1);
    RunSplit(meds, lastAlarm, a, [t2]);
    SameMinuteRingsAtMostOnce(meds, lastAlarm, t1, a);
    var marker := MarkerAfter(meds, lastAlarm, a);
    assert RunTicks(meds, marker, [t2]) == [FindTrigger(meds, t2).value];
  }

  /** A due medication rings at its own minute: the tick at the hour and
      minute its valid `HH:mm` time spells selects it, when it is the first
      due and the minute has not rung yet. */
  lemma DueMedicationRings(meds: seq<Medication>, k: nat, lastAlarm: Option<string>)
    requires k < |meds| && meds[k].active && IsHHmm(meds[k].time)
    requires forall j :: 0 <= j < k ==> !Fires(meds[j], meds[k].time)
    requires lastAlarm != Some(meds[k].time)
    ensures 0 <= Hours(meds[k].time) < 24 && 0 <= Minutes(meds[k].time) < 60
    ensures Evaluate(FormatHHmm(Hours(meds[k].time), Minutes(meds[k].time)), meds, lastAlarm) == Some(meds[k])
  {
    HHmmIsFormatted(meds[k].time);
    FirstMatchWins(meds, meds[k].time, k);
  }

  /** A medication whose time is not a valid `HH:mm` string never rings: every
      clock string is well formed. */
  lemma OnlyValidTimesRing(meds: seq<Medication>, hours: nat, minutes: nat, lastAlarm: Option<string>)
    requires hours < 24 && minutes < 60
    ensures var e := Evaluate(FormatHHmm(hours, minutes), meds, lastAlarm);
      e.Some? ==> IsHHmm(e.value.time)
  {
    FormatHHmmIsHHmm(hours, minutes);
  }

  /** The guard keys on the clock string alone, with no date: a daily
      medication that rang at 08:00 is skipped at 08:00 the next day when no
      other medication rang in between, since the marker still holds
      "08:00". */
  lemma NextDaySuppressed(m: Medication)
    requires m.active && m.time == "08:00"
    ensures RunTicks([m], None, ["08:00", "08:01", "08:00"]) == [m]
  {
    var times: seq<string> := ["08:00", "08:01", "08:00"];
    assert times[1..] == ["08:01", "08:00"] && times[1..][1..] == ["08:00"];
    assert Fires([m][0], "08:00") && !Fires([m][0], "08:01");
    assert Evaluate("08:00", [m], None) == Some(m);
    assert Evaluate("08:01", [m], Some("08:00")) == None;
    assert Evaluate("08:00", [m], Some("08:00")) == None;
  }

  /** A minute of a particular day: the calendar day and the `HH:mm` clock
      string. */
  datatype Stamp = Stamp(day: int, minute: string)

  /** The tick decision with a marker that also records the day: a minute
      is skipped only when that minute of that same day already rang. */
  function EvaluateDated(now: Stamp, meds: seq<Medication>, lastAlarm: Option<Stamp>): (r: Option<Medication>)
    ensures r.Some? <==> lastAlarm != Some(now) && exists i :: 0 <= i < |meds| && Fires(meds[i], now.minute)
    ensures lastAlarm != Some(now) ==> r == FindTrigger(meds, now.minute)
  {
    if lastAlarm == Some(now) then None else FindTrigger(meds, now.minute)
  }

  /** The dated marker after a tick: the stamp that rang, otherwise unchanged. */
  function NextMarkerDated(now: Stamp, meds: seq<Medication>, lastAlarm: Option<Stamp>): (r: Option<Stamp>)
    ensures r == lastAlarm || r == Some(now)
    ensures r == Some(now) <==> lastAlarm == Some(now) || EvaluateDated(now, meds, lastAlarm).Some?
  {
    if EvaluateDated(now, meds, lastAlarm).Some? then Some(now) else lastAlarm
  }

  /** The alarms a run of dated ticks raises, in order. */
  function RunDated(meds: seq<Medication>, lastAlarm: Option<Stamp>, stamps: seq<Stamp>): (fired: seq<Medication>)
    ensures |fired| <= |stamps|
    decreases |stamps|
  {
    if stamps == [] then []
    else
      var e := EvaluateDated(stamps[0], meds, lastAlarm);
      (if e.Some? then [e.value] else []) + RunDated(meds, NextMarkerDated(stamps[0], meds, lastAlarm), stamps[1..])
  }

  /** What a reminder owes: at every tick, the first medication due then. */
  function DueAt(meds: seq<Medication>, stamps: seq<Stamp>): (due: seq<Medication>)
    ensures |due| <= |stamps|
    ensures forall m :: m in due ==> m in meds && m.active
    decreases |stamps|
  {
    if stamps == [] then []
    else
      var f := FindTrigger(meds, stamps[0].minute);
      (if f.Some? then [f.value] else []) + DueAt(meds, stamps[1..])
  }

  /** With the dated marker nothing is ever lost: over ticks at distinct
      minutes (of any days) that the marker has not seen, every tick at which
      a medication is due rings for it. */
  lemma {:induction false} DistinctStampsAllRing(meds: seq<Medication>, lastAlarm: Option<Stamp>, stamps: seq<Stamp>)
    requires forall i, j :: 0 <= i < j < |stamps| ==> stamps[i] != stamps[j]
    requires forall i :: 0 <= i < |stamps| ==> lastAlarm != Some(stamps[i])
    ensures RunDated(meds, lastAlarm, stamps) == DueAt(meds, stamps)
    decreases |stamps|
  {
    if stamps != [] {
      var rest := stamps[1..];
      var marker := NextMarkerDated(stamps[0], meds, lastAlarm);
      assert forall i :: 0 <= i < |rest| ==> rest[i] == stamps[i + 1];
      assert forall i :: 0 <= i < |rest| ==> marker != Some(rest[i]);
      DistinctStampsAllRing(meds, marker, rest);
    }
  }

  /** The daily medication of `NextDaySuppressed` rings on both days once
      the marker carries the day. */
  lemma NextDayRingsAgain(m: Medication, d: int)
    requires m.active && m.time == "08:00"
    ensures RunDated([m], None, [Stamp(d, "08:00"), Stamp(d, "08:01"), Stamp(d + 1, "08:00")]) == [m, m]
  {
    var stamps := [Stamp(d, "08:00"), Stamp(d, "08:01"), Stamp(d + 1, "08:00")];
    assert "08:00" != "08:01" by { assert "08:00"[4] != "08:01"[4]; }
    DistinctStampsAllRing([m], None, stamps);
    assert stamps[1..] == [Stamp(d, "08:01"), Stamp(d + 1, "08:00")] && stamps[1..][1..] == [Stamp(d + 1, "08:00")];
    assert FindTrigger([m], "08:00") == Some(m);
    assert FindTrigger([m], "08:01") == None by { assert !Fires([m][0], "08:01"); }
    assert DueAt([m], stamps[1..][1..]) == [m];
    assert DueAt([m], stamps[1..]) == [m];
  }
}
