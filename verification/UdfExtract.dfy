/** Copying a UDF image with `cp`, watched through the free space of the target volume. */
module UdfExtract {
  import opened CStrings
  import opened IsoExtract

  /** How far free space has dropped below `initial` in one reading; 0 when it could not be read. */
  function Drop(initial: nat, reading: Option<nat>): nat {
    if reading.Some? && reading.value < initial then initial - reading.value else 0
  }

  /** The largest drop among the first `n` readings. */
  function MaxDrop(initial: nat, readings: seq<Option<nat>>, n: nat): nat
    requires n <= |readings|
  {
    if n == 0 then 0
    else
      var d, m := Drop(initial, readings[n - 1]), MaxDrop(initial, readings, n - 1);
      if d > m then d else m
  }

  /** MaxDrop bounds every drop so far, and is one of them unless it is 0. */
  lemma {:induction false} MaxDropIsMaximum(initial: nat, readings: seq<Option<nat>>, n: nat)
    requires n <= |readings|
    ensures forall k :: 0 <= k < n && readings[k].Some? ==> initial - readings[k].value <= MaxDrop(initial, readings, n)
    ensures MaxDrop(initial, readings, n) == 0
            || exists k :: 0 <= k < n && readings[k].Some? && initial - readings[k].value == MaxDrop(initial, readings, n)
  {
    if n > 0 {
      MaxDropIsMaximum(initial, readings, n - 1);
    }
  }

  /** What counts as copied after `n` readings: nothing without an initial one to compare with. */
  function Copied(initial: Option<nat>, readings: seq<Option<nat>>, n: nat): nat
    requires n <= |readings|
  {
    if initial.Some? then MaxDrop(initial.value, readings, n) else 0
  }

  /** The reports so far follow what has been copied, and never go back. */
  ghost predicate Faithful(total: nat, initial: Option<nat>, readings: seq<Option<nat>>, reports: seq<nat>, copied: nat)
    requires total > 0
  {
    && |reports| <= |readings| && Steady(reports) && copied == Copied(initial, readings, |reports|)
    && forall k :: 0 <= k < |reports| ==>
         reports[k] == Percent(Copied(initial, readings, k + 1), total) && reports[k] <= Percent(copied, total)
  }

  lemma FaithfulStep(total: nat, initial: Option<nat>, readings: seq<Option<nat>>, reports: seq<nat>,
                     before: nat, copied: nat)
    requires total > 0 && |reports| < |readings| && Faithful(total, initial, readings, reports, before)
    requires copied == Copied(initial, readings, |reports| + 1)
    ensures Faithful(total, initial, readings, reports + [Percent(copied, total)], copied)
  {
    hide Percent;
    PercentMonotone(before, copied, total);
    PercentBounded(copied, total);
  }

  /**
    The watch loop of iso_extract_udf. `readings` holds what each poll reads while the copy is
    running; without an initial reading no poll counts. `copyOk` is how the copy ends.
   */
  method Watch(flag: CancelFlag, total: nat, initial: Option<nat>, readings: seq<Option<nat>>, copyOk: bool)
    returns (result: IsoResult, reports: seq<nat>, copied: nat)
    requires total > 0 && flag.Valid()
    modifies flag
    ensures result in {IsoOk, ExtractFailed} && |reports| <= |readings| && Steady(reports)
    ensures copied == Copied(initial, readings, |reports|)
    ensures forall k :: 0 <= k < |reports| ==> reports[k] == Percent(Copied(initial, readings, k + 1), total)
    ensures flag.Valid() && (old(flag.cancelled) ==> flag.cancelled)
    ensures ClearButLast(old(flag.log), flag.log, old(flag.cancelled))
    ensures |flag.log| - |old(flag.log)| == |reports|
    // The flag is read once for each report and sees exactly what was set by then.
    ensures FlagKept(flag, old(Noted(flag)), |reports|)
    ensures result == IsoOk <==> copyOk && true !in flag.log[|old(flag.log)|..] && |reports| == |readings|
    ensures result != IsoOk ==> SeenLast(old(flag.log), flag.log) || (|reports| == |readings| && !copyOk)
  {
    reports, copied := [], 0;
    ghost var b := Noted(flag);
    NotedKept(flag);
    ClearIsUnseen(flag.log, flag.log, flag.cancelled);
    assert Faithful(total, initial, readings, reports, copied);
    hide Percent, AllClear, ClearButLast, SeenLast, Faithful, FlagKept;
    var seen := false;
    while |reports| < |readings| && !seen
      invariant |reports| <= |readings| && Faithful(total, initial, readings, reports, copied)
      invariant FlagKept(flag, b, |reports|) && seen == SeenLast(b.log, flag.log)
      invariant !seen ==> AllClear(b.log, flag.log, b.wasSet)
      decreases |readings| - |reports|, !seen
    {
      var before, reading := copied, readings[|reports|];
      if initial.Some? && reading.Some? && reading.value < initial.value {
        var drop := initial.value - reading.value;
        if drop > copied {
          copied := drop;
        }
      }
      CopiedStep(total, initial, readings, reports, before, copied);
      FaithfulStep(total, initial, readings, reports, before, copied);
      seen := Report(flag, b, |reports|);
      reports := reports + [Percent(copied, total)];
      if !seen {
        ClearIsUnseen(b.log, flag.log, b.wasSet);
      }
    }
    EndFaithful(total, initial, readings, reports, copied);
    FlagMeans(flag, b, |reports|);
    if seen {
      SeenIsThere(b.log, flag.log);
    } else {
      LogEnd(b.log, flag.log, b.wasSet);
    }
    result := if copyOk && !seen then IsoOk else ExtractFailed;
  }

  /** What a run finds of the flag when it begins. */
  ghost function Noted(flag: CancelFlag): Start
    reads flag
  {
    Start(map[], 0, flag.log, flag.cancelled, flag.readCount)
  }

  lemma NotedKept(flag: CancelFlag)
    requires flag.Valid()
    ensures FlagKept(flag, Noted(flag), 0) && AllClear(flag.log, flag.log, flag.cancelled)
  {
  }

  lemma CopiedStep(total: nat, initial: Option<nat>, readings: seq<Option<nat>>, reports: seq<nat>,
                   before: nat, copied: nat)
    requires total > 0 && |reports| < |readings| && Faithful(total, initial, readings, reports, before)
    requires var r := readings[|reports|];
             copied == if initial.Some? && r.Some? && r.value < initial.value && initial.value - r.value > before
                       then initial.value - r.value else before
    ensures copied == Copied(initial, readings, |reports| + 1)
  {
    hide Percent;
  }

  lemma SeenIsThere(start: seq<bool>, log: seq<bool>)
    requires SeenLast(start, log)
    ensures true in log[|start|..]
  {
    assert log[|start|..][|log| - |start| - 1];
  }

  lemma EndFaithful(total: nat, initial: Option<nat>, readings: seq<Option<nat>>, reports: seq<nat>, copied: nat)
    requires total > 0 && Faithful(total, initial, readings, reports, copied)
    ensures |reports| <= |readings| && Steady(reports) && copied == Copied(initial, readings, |reports|)
    ensures forall k :: 0 <= k < |reports| ==> reports[k] == Percent(Copied(initial, readings, k + 1), total)
  {
  }

  lemma PercentBounded(bytes: nat, total: nat)
    requires total > 0
    ensures Percent(bytes, total) <= 100
  {
  }
}
