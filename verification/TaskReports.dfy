/** Conservation of a task's output: which bytes the posts and reports deliver, lose and repeat, over one run and
    over many. */
module TaskReports {
  import opened TaskOutput

  /** The posted bytes are the beginning of the output and the report its end; between them lie
      exactly the bytes over the quota. */
  ghost predicate Delivered(produced: seq<byte>, posted: seq<byte>, report: seq<byte>, quota: nat) {
    var cut := Over(|produced|, quota);
    && |posted| + cut + |report| == |produced|
    && produced == posted + produced[|posted|..|posted| + cut] + report
  }

  /** Together they fill the quota or are the whole output, whichever is shorter. */
  lemma DeliveredWithinQuota(produced: seq<byte>, posted: seq<byte>, report: seq<byte>, quota: nat)
    requires Delivered(produced, posted, report, quota)
    ensures |posted| + |report| == Min(|produced|, quota)
    ensures Over(|produced|, quota) == 0 ==> posted + report == produced
    ensures forall i :: 0 <= i < |posted| ==> posted[i] == produced[i]
    ensures forall i :: 0 <= i < |report| ==> report[i] == produced[|produced| - |report| + i]
  {
  }

  /** A run that makes a final report, canceled in between or not, delivers its output. */
  lemma ConcludedRunDelivers(setup: Setup, inv: Invocation, canceled: bool, droped: int)
    requires Concludes(inv, canceled)
    ensures var produced := Produced(inv.events);
            var posted := produced[..PostedCount(setup.periodic, inv.events)];
            var last := EndReports(setup, inv, canceled, droped)[0];
            && Delivered(produced, posted, last.output, Quota(setup))
            && (Over(|produced|, Quota(setup)) > 0 ==> last.droped == Over(|produced|, Quota(setup)))
  {
    hide Produced, PostedCount, ReadCount, Quota, Concludes, Delivered;
    EndSpan(setup, inv, canceled, droped);
    InThreeParts(Produced(inv.events), PostedCount(setup.periodic, inv.events), Quota(setup));
  }

  lemma InThreeParts(produced: seq<byte>, sent: nat, quota: nat)
    requires sent + Over(|produced|, quota) <= |produced|
    ensures Delivered(produced, produced[..sent], produced[sent + Over(|produced|, quota)..], quota)
  {
  }

  /** What has been written, read and posted stays so; past the early quota nothing more is posted. */
  lemma {:induction false} CountsGrow(periodic: bool, events: seq<Event>, i: nat)
    requires i <= |events|
    ensures var until := events[..i];
            && Produced(until) <= Produced(events)
            && ReadCount(periodic, until) <= ReadCount(periodic, events)
            && PostedCount(periodic, until) <= PostedCount(periodic, events)
            && (PostedCount(periodic, until) > DEFAULT_QUOTO_PRE ==>
                  PostedCount(periodic, until) == PostedCount(periodic, events))
    decreases |events|
  {
    if i == |events| {
      assert events[..i] == events;
    } else {
      CountsGrow(periodic, Front(events), i);
      assert Front(events)[..i] == events[..i];
    }
  }

  function Max(a: nat, b: nat): nat {
    if a < b then b else a
  }

  lemma SlicesOfPrefix(p: seq<byte>, q: seq<byte>, a: nat, b: nat)
    requires p <= q && a <= b <= |p|
    ensures p[a..b] == q[a..b]
  {
    assert q[..|p|] == p;
  }

  lemma FourParts(p: seq<byte>, a: nat, b: nat, c: nat)
    requires a <= b <= c <= |p|
    ensures p == p[..a] + p[a..b] + p[b..c] + p[c..]
  {
  }

  /** Which of all the bytes the cancel report holds; if it holds any, nothing is posted later. */
  lemma StopSpan(setup: Setup, inv: Invocation, canceled: bool, droped: int)
    requires Stops(inv, canceled)
    ensures var produced, read := Produced(inv.events), ReadAtStop(setup, inv);
            var sent, cut := PostedCount(setup.periodic, inv.events), Over(read, Quota(setup));
            var before := PostedCount(setup.periodic, Until(inv));
            var stop := StopReports(setup, inv, canceled, droped)[0].output;
            && before + cut <= read <= |produced| && stop == produced[before + cut..read]
            && (before == sent || (before == read <= sent && cut == 0))
  {
    var until := Until(inv);
    assert inv.events[..|inv.events|] == inv.events;
    assert until == inv.events[..|until|];
    CountsGrow(setup.periodic, inv.events, |until|);
    StopIsEarlyOrWhole(setup, inv);
    hide Produced, ReadCount, PostedCount, FirstCancel, Quota, Until, ReadAtStop;
    var produced, read := Produced(until), ReadAtStop(setup, inv);
    SlicesOfPrefix(produced, Produced(inv.events), PostedCount(setup.periodic, until) + Over(read, Quota(setup)), read);
  }

  lemma StopIsEarlyOrWhole(setup: Setup, inv: Invocation)
    ensures var before, read := PostedCount(setup.periodic, Until(inv)), ReadAtStop(setup, inv);
            before == read || before > DEFAULT_QUOTO_PRE || Until(inv) == inv.events
  {
    hide Produced;
  }

  /** Where the bytes of a canceled run go: posted, cut from the cancel report, in it, or after it. Without a
      final report the cut bytes and those after the cancel report and the posted ones are lost. */
  lemma StoppedRunDelivers(setup: Setup, inv: Invocation, canceled: bool, droped: int)
    requires Stops(inv, canceled)
    ensures var produced, read := Produced(inv.events), ReadAtStop(setup, inv);
            var sent := PostedCount(setup.periodic, inv.events);
            var stop := StopReports(setup, inv, canceled, droped)[0].output;
            var cut := Over(read, Quota(setup));
            && sent + cut <= Max(read, sent) <= |produced|
            && produced == produced[..sent] + produced[sent..sent + cut] + stop + produced[Max(read, sent)..]
            && sent + cut + |stop| == Max(read, sent)
  {
    StopSpan(setup, inv, canceled, droped);
    var produced, read := Produced(inv.events), ReadAtStop(setup, inv);
    var sent, cut := PostedCount(setup.periodic, inv.events), Over(read, Quota(setup));
    hide Produced, ReadCount, PostedCount, StopReports, Stops, ReadAtStop;
    FourParts(produced, sent, sent + cut, Max(read, sent));
  }

  lemma EndSpan(setup: Setup, inv: Invocation, canceled: bool, droped: int)
    requires Concludes(inv, canceled)
    ensures var produced := Produced(inv.events);
            var from := PostedCount(setup.periodic, inv.events) + Over(|produced|, Quota(setup));
            from <= |produced| && EndReports(setup, inv, canceled, droped)[0].output == produced[from..]
  {
    hide Produced, ReadCount, StopDrop, Concludes;
  }

  lemma Overlap(p: seq<byte>, lo: nat, from: nat, hi: nat)
    requires lo <= from <= hi <= |p|
    ensures p[lo..hi][from - lo..] == p[from..hi] == p[from..][..hi - from]
  {
  }

  /** The final report starts no earlier than a cancel report that holds anything. */
  lemma EndStartsLater(before: nat, sent: nat, read: nat, count: nat, quota: nat)
    requires read <= count && (before == sent || (before == read <= sent && Over(read, quota) == 0))
    ensures var lo, from := before + Over(read, quota), sent + Over(count, quota);
            lo <= from && (lo == read ==> from >= read)
  {
  }

  /** The final report holds the output from `from` on. The cancel report, if it holds anything, holds output up to
      `read`; where that is beyond `from`, its end is the beginning of the final report. */
  ghost predicate RepeatsFrom(p: seq<byte>, stop: seq<byte>, end: seq<byte>, from: nat, read: nat) {
    && read <= |p| && from <= |p| && end == p[from..]
    && if stop == [] then from >= read
       else
         && |stop| <= read && stop == p[read - |stop|..read]
         && (from < read ==> read - |stop| <= from && stop[|stop| - (read - from)..] == end[..read - from])
  }

  lemma RepeatedPart(p: seq<byte>, before: nat, sent: nat, read: nat, quota: nat)
    requires before + Over(read, quota) <= read <= |p| && sent + Over(|p|, quota) <= |p|
    requires before == sent || (before == read <= sent && Over(read, quota) == 0)
    ensures var from := sent + Over(|p|, quota);
            RepeatsFrom(p, p[before + Over(read, quota)..read], p[from..], from, read)
  {
    EndStartsLater(before, sent, read, |p|, quota);
    hide Over;
    var lo, from := before + Over(read, quota), sent + Over(|p|, quota);
    if from < read {
      Overlap(p, lo, from, read);
    }
  }

  /** A run with a cancel report and a final report repeats exactly those bytes kept at the cancellation that the
      final report does not cut, if there are any: the end of the one report is the beginning of the other. */
  lemma ReportedTwice(setup: Setup, inv: Invocation, canceled: bool, droped: int)
    requires Stops(inv, canceled) && Concludes(inv, canceled)
    ensures var produced := Produced(inv.events);
            var stop := StopReports(setup, inv, canceled, droped)[0].output;
            var end := EndReports(setup, inv, canceled, droped)[0].output;
            var from := PostedCount(setup.periodic, inv.events) + Over(|produced|, Quota(setup));
            RepeatsFrom(produced, stop, end, from, ReadAtStop(setup, inv))
  {
    hide Produced, ReadCount, PostedCount, FirstCancel, Quota, Until, Over, RepeatsFrom;
    StopSpan(setup, inv, canceled, droped);
    EndSpan(setup, inv, canceled, droped);
    hide ReadAtStop, Stops, Concludes, StopReports, EndReports;
    RepeatedPart(Produced(inv.events), PostedCount(setup.periodic, Until(inv)),
                 PostedCount(setup.periodic, inv.events), ReadAtStop(setup, inv), Quota(setup));
  }

  // ------------------------------------------------------------ Which byte is in which report

  /** The positions of a report's bytes among all bytes written. */
  datatype Span = Span(lo: nat, hi: nat)

  predicate In(k: nat, span: Span) {
    span.lo <= k < span.hi
  }

  function StopSpans(setup: Setup, inv: Invocation, canceled: bool): seq<Span> {
    var read := ReadAtStop(setup, inv);
    if Stops(inv, canceled) then [Span(PostedCount(setup.periodic, Until(inv)) + Over(read, Quota(setup)), read)]
    else []
  }

  function EndSpans(setup: Setup, inv: Invocation, canceled: bool): seq<Span> {
    var count := |Produced(inv.events)|;
    if Concludes(inv, canceled) then [Span(PostedCount(setup.periodic, inv.events) + Over(count, Quota(setup)), count)]
    else []
  }

  function Spans(setup: Setup, inv: Invocation, canceled: bool): seq<Span> {
    if StopsFirst(inv) then StopSpans(setup, inv, canceled) + EndSpans(setup, inv, canceled)
    else EndSpans(setup, inv, canceled) + StopSpans(setup, inv, canceled)
  }

  lemma CancelSpan(setup: Setup, inv: Invocation, canceled: bool)
    requires Stops(inv, canceled)
    ensures var before, sent := PostedCount(setup.periodic, Until(inv)), PostedCount(setup.periodic, inv.events);
            var read := ReadAtStop(setup, inv);
            && read <= |Produced(inv.events)|
            && (before == sent || (before == read <= sent && Over(read, Quota(setup)) == 0))
  {
    hide Produced, ReadCount, PostedCount, FirstCancel, Quota, Until, Over;
    StopSpan(setup, inv, canceled, 0);
  }

  /** Each span is that of the report at its place. */
  ghost predicate Tell(spans: seq<Span>, reports: seq<Report>, produced: seq<byte>) {
    && |spans| == |reports|
    && forall i :: 0 <= i < |spans| ==>
         spans[i].lo <= spans[i].hi <= |produced| && reports[i].output == produced[spans[i].lo..spans[i].hi]
  }

  lemma StopSpansTell(setup: Setup, inv: Invocation, canceled: bool, droped: int)
    ensures Tell(StopSpans(setup, inv, canceled), StopReports(setup, inv, canceled, droped), Produced(inv.events))
  {
    if Stops(inv, canceled) {
      StopSpan(setup, inv, canceled, droped);
    }
    hide Produced, ReadCount, PostedCount, Stops, ReadAtStop, Quota, Until, ReportOn;
  }

  lemma EndSpansTell(setup: Setup, inv: Invocation, canceled: bool, droped: int)
    ensures Tell(EndSpans(setup, inv, canceled), EndReports(setup, inv, canceled, droped), Produced(inv.events))
  {
    if Concludes(inv, canceled) {
      EndSpan(setup, inv, canceled, droped);
    }
    hide Produced, ReadCount, PostedCount, Concludes, Quota, ReportOn;
  }

  /** The spans say which bytes the reports hold. */
  lemma SpansTell(setup: Setup, inv: Invocation, canceled: bool, droped: int)
    ensures Tell(Spans(setup, inv, canceled), Reports(setup, inv, canceled, droped), Produced(inv.events))
  {
    hide Produced, StopReports, EndReports, StopSpans, EndSpans, StopDrop, EndDrop;
    StopSpansTell(setup, inv, canceled, droped);
    StopSpansTell(setup, inv, canceled, Latest(EndDrop(setup, inv, canceled), droped));
    EndSpansTell(setup, inv, canceled, droped);
    EndSpansTell(setup, inv, canceled, Latest(StopDrop(setup, inv, canceled), droped));
  }

  /** Some byte is in two reports. */
  ghost predicate Repeats(setup: Setup, inv: Invocation, canceled: bool) {
    var spans := Spans(setup, inv, canceled);
    exists i, j, k: nat :: 0 <= i < j < |spans| && In(k, spans[i]) && In(k, spans[j])
  }

  /** A run repeats output exactly if it makes both reports and, when it was canceled, kept a byte that the quota
      leaves in the final report. */
  lemma RepeatsIff(setup: Setup, inv: Invocation, canceled: bool)
    ensures Repeats(setup, inv, canceled) <==>
            && Stops(inv, canceled) && Concludes(inv, canceled)
            && PostedCount(setup.periodic, inv.events) + Over(|Produced(inv.events)|, Quota(setup))
               < ReadAtStop(setup, inv)
  {
    hide Produced, ReadCount, PostedCount, FirstCancel, Stops, Concludes, ReadAtStop, Quota, Until, Over;
    if Stops(inv, canceled) && Concludes(inv, canceled) {
      CancelSpan(setup, inv, canceled);
      EndStartsLater(PostedCount(setup.periodic, Until(inv)), PostedCount(setup.periodic, inv.events),
                     ReadAtStop(setup, inv), |Produced(inv.events)|, Quota(setup));
      var spans := Spans(setup, inv, canceled);
      var k := PostedCount(setup.periodic, inv.events) + Over(|Produced(inv.events)|, Quota(setup));
      if k < ReadAtStop(setup, inv) {
        assert In(k, spans[0]) && In(k, spans[1]);
      }
    }
  }

  /** A byte reaches the server: it is posted, or it is in a report. */
  ghost predicate Told(setup: Setup, inv: Invocation, canceled: bool, k: nat) {
    || k < PostedCount(setup.periodic, inv.events)
    || exists i :: 0 <= i < |Spans(setup, inv, canceled)| && In(k, Spans(setup, inv, canceled)[i])
  }

  /** Which bytes reach the server, and so which are lost: after a quiet cancellation of a process that then ends by
      itself, say, all that are not posted. */
  lemma ToldIff(setup: Setup, inv: Invocation, canceled: bool, k: nat)
    ensures var sent, quota := PostedCount(setup.periodic, inv.events), Quota(setup);
            var count, read := |Produced(inv.events)|, ReadAtStop(setup, inv);
            Told(setup, inv, canceled, k) <==>
            || k < sent
            || (Stops(inv, canceled) && sent + Over(read, quota) <= k < read)
            || (Concludes(inv, canceled) && sent + Over(count, quota) <= k < count)
  {
    hide Produced, ReadCount, PostedCount, FirstCancel, Stops, Concludes, ReadAtStop, Quota, Until, StopReports, Over;
    var spans := Spans(setup, inv, canceled);
    if Stops(inv, canceled) {
      CancelSpan(setup, inv, canceled);
      assert StopSpans(setup, inv, canceled)[0] in spans;
    }
    if Concludes(inv, canceled) {
      assert EndSpans(setup, inv, canceled)[0] in spans;
    }
  }

  /** Nothing is lost exactly if everything is posted, or the output is within the quota and a final report is made, or
      the cancellation came within the quota and found what the posts and the final report leave out. */
  lemma NothingLostIff(setup: Setup, inv: Invocation, canceled: bool)
    ensures var sent, quota := PostedCount(setup.periodic, inv.events), Quota(setup);
            var count, read := |Produced(inv.events)|, ReadAtStop(setup, inv);
            (forall k: nat :: k < count ==> Told(setup, inv, canceled, k)) <==>
            || sent == count
            || (Concludes(inv, canceled) && count <= quota)
            || (Stops(inv, canceled) && read <= quota
                && (read == count || (Concludes(inv, canceled) && sent + Over(count, quota) <= read)))
  {
    forall k: nat {
      ToldIff(setup, inv, canceled, k);
    }
    var sent, quota := PostedCount(setup.periodic, inv.events), Quota(setup);
    var count, read := |Produced(inv.events)|, ReadAtStop(setup, inv);
    CountsGrow(setup.periodic, inv.events, |inv.events|);
    if Stops(inv, canceled) {
      StopSpan(setup, inv, canceled, 0);
    }
    hide Produced, ReadCount, PostedCount, Stops, Concludes, ReadAtStop, Quota, Until, StopReports, Told;
    if forall k: nat :: k < count ==> Told(setup, inv, canceled, k) {
      assert sent < count ==> Told(setup, inv, canceled, sent);
      assert sent < count && read < count ==> Told(setup, inv, canceled, Max(sent, read));
      assert sent < count ==> Told(setup, inv, canceled, count - 1);
    }
  }

  // ------------------------------------------------------------ Many runs of one task

  predicate CanceledIn(runs: seq<Invocation>) {
    exists r :: r in runs && Requested(r)
  }

  /** What the latest run that dropped anything dropped. */
  function LatestDrop(setup: Setup, runs: seq<Invocation>): nat {
    if runs == [] then 0
    else
      var before, last := runs[..|runs| - 1], runs[|runs| - 1];
      Latest(DropOf(setup, last, CanceledIn(before)), LatestDrop(setup, before))
  }

  lemma CanceledInStep(runs: seq<Invocation>, i: nat)
    requires i < |runs|
    ensures CanceledIn(runs[..i + 1]) <==> CanceledIn(runs[..i]) || Requested(runs[i])
  {
    assert runs[..i + 1] == runs[..i] + [runs[i]];
    assert runs[i] in runs[..i + 1];
  }

  /** A task that is run again and again: the count after each run is not that run's, but that of the latest
      run that dropped anything. */
  method RunAll(setup: Setup, runs: seq<Invocation>) returns (counts: seq<int>)
    ensures |counts| == |runs|
    ensures forall i :: 0 <= i < |runs| ==> counts[i] == LatestDrop(setup, runs[..i + 1])
  {
    hide DropOf, Requested, Reports;
    var task := new Task(setup);
    counts := [];
    for i := 0 to |runs|
      invariant fresh(task) && task.setup == setup && task.output == []
      invariant task.canceled == CanceledIn(runs[..i]) && task.droped == LatestDrop(setup, runs[..i])
      invariant |counts| == i
      invariant forall k :: 0 <= k < i ==> counts[k] == LatestDrop(setup, runs[..k + 1])
    {
      CanceledInStep(runs, i);
      assert runs[..i + 1][..i] == runs[..i];
      task.Run(runs[i]);
      counts := counts + [task.droped];
    }
  }

  /** None of the runs has dropped anything. */
  ghost predicate NoneDrops(setup: Setup, runs: seq<Invocation>) {
    forall j :: 0 <= j < |runs| ==> DropOf(setup, runs[j], CanceledIn(runs[..j])) == 0
  }

  lemma {:induction false} NoLatestDrop(setup: Setup, runs: seq<Invocation>)
    ensures LatestDrop(setup, runs) == 0 <==> NoneDrops(setup, runs)
  {
    hide DropOf, CanceledIn;
    if runs != [] {
      var n := |runs| - 1;
      var before := runs[..n];
      NoLatestDrop(setup, before);
      assert forall j :: 0 <= j < n ==> before[..j] == runs[..j] && before[j] == runs[j];
    }
  }

  /** So the count after a run is its own exactly if it drops something or no earlier run did. */
  lemma CountIsOwnIff(setup: Setup, runs: seq<Invocation>, last: Invocation)
    ensures LatestDrop(setup, runs + [last]) == DropOf(setup, last, CanceledIn(runs)) <==>
            DropOf(setup, last, CanceledIn(runs)) > 0 || NoneDrops(setup, runs)
  {
    assert (runs + [last])[..|runs|] == runs;
    NoLatestDrop(setup, runs);
  }

  /** A run drops something exactly if a final report is made and the output is over the quota, or what a
      cancellation finds is. */
  lemma DropsIff(setup: Setup, inv: Invocation, canceled: bool)
    ensures DropOf(setup, inv, canceled) > 0 <==>
            || (Concludes(inv, canceled) && |Produced(inv.events)| > Quota(setup))
            || (Stops(inv, canceled) && ReadAtStop(setup, inv) > Quota(setup))
  {
  }

  /** A run over the quota, then a silent one: the second still counts the first one's dropped bytes. */
  lemma StaleCount(setup: Setup, p: seq<byte>)
    requires |p| > Quota(setup)
    ensures var loud, silent := Plain([Written(p)], Success), Plain([], Success);
            && LatestDrop(setup, [loud, silent]) == |p| - Quota(setup) > 0
            && DropOf(setup, silent, false) == 0 && !CanceledIn([loud])
  {
    var loud, silent := Plain([Written(p)], Success), Plain([], Success);
    assert Front(loud.events) == [];
    assert Produced(loud.events) == p;
    assert forall k :: 0 <= k < |loud.events| ==> !loud.events[k].CancelRequest?;
    assert [loud, silent][..1] == [loud];
    assert [loud][..0] == [];
    CountIsOwnIff(setup, [loud], silent);
  }

  // ------------------------------------------------------------ Runs that repeat output

  /** An invocation without late cancel requests. */
  function Plain(events: seq<Event>, ending: Ending): Invocation {
    Invocation(events, ending, [], [], [])
  }

  lemma NoCancelYet(events: seq<Event>, e: Event)
    requires !HasCancel(events)
    ensures HasCancel(events + [e]) <==> e.CancelRequest?
    ensures e.CancelRequest? ==> FirstCancel(events + [e]) == |events|
  {
    assert Front(events + [e]) == events;
  }

  lemma FiveBlocks(p: seq<byte>) returns (until: seq<Event>)
    requires |p| == 5 * READ_SIZE
    ensures var b := Beat(false); until == [Written(p), b, b, b, b, b]
    ensures Produced(until) == p && ReadCount(false, until) == |p| && PostedCount(false, until) == 3 * READ_SIZE
  {
    hide Produced, ReadCount, PostedCount;
    NothingYet(false);
    EventCounts(false, [], Written(p));
    until := [] + [Written(p)];
    for i := 0 to 5
      invariant |until| == i + 1 && until[0] == Written(p) && forall k :: 1 <= k <= i ==> until[k] == Beat(false)
      invariant Produced(until) == p && ReadCount(false, until) == i * READ_SIZE
      invariant PostedCount(false, until) == if i < 3 then i * READ_SIZE else 3 * READ_SIZE
    {
      EventCounts(false, until, Beat(false));
      until := until + [Beat(false)];
    }
  }

  /** A cancel request as the last event before a timeout. */
  lemma CanceledThenTimedOut(setup: Setup, until: seq<Event>)
    requires !HasCancel(until)
    ensures var inv := Plain(until + [CancelRequest(false)], Timeout);
            && Stops(inv, false) && Concludes(inv, false) && StopsFirst(inv)
            && ReadAtStop(setup, inv) == ReadCount(setup.periodic, until) && Until(inv) == until
            && Produced(inv.events) == Produced(until)
            && PostedCount(setup.periodic, inv.events) == PostedCount(setup.periodic, until)
  {
    hide ReadCount;
    var inv := Plain(until + [CancelRequest(false)], Timeout);
    assert Front(inv.events) == until;
    NoCancelYet(until, CancelRequest(false));
  }

  /** Five blocks are written and read, the command is canceled and then times out: the two blocks that were kept
      are in both reports. */
  lemma RepeatsAtTimeout(setup: Setup, p: seq<byte>)
    requires !setup.periodic && |p| == 5 * READ_SIZE
    ensures var b := Beat(false);
            var inv := Plain([Written(p), b, b, b, b, b, CancelRequest(false)], Timeout);
            var reports := Reports(setup, inv, false, 0);
            && |reports| == 2 && reports[0].output == reports[1].output == p[3 * READ_SIZE..]
            && Repeats(setup, inv, false)
  {
    var until := FiveBlocks(p);
    assert !HasCancel(until) by { hide Produced, ReadCount, PostedCount; }
    hide Produced, ReadCount, PostedCount, HasCancel, FirstCancel, Until, Stops, Concludes, StopsFirst, ReadAtStop;
    var b := Beat(false);
    var inv := Plain([Written(p), b, b, b, b, b, CancelRequest(false)], Timeout);
    assert inv.events == until + [CancelRequest(false)];
    CanceledThenTimedOut(setup, until);
    RepeatsIff(setup, inv, false);
  }

  /** A command ends by itself and is canceled while its final report is being sent: its output is reported twice. */
  lemma RepeatsAfterFinish(setup: Setup, p: seq<byte>)
    requires 0 < |p| <= Quota(setup)
    ensures var inv := Invocation([Written(p)], Success, [], [false], []);
            var reports := Reports(setup, inv, false, 0);
            && |reports| == 2 && reports[0] == Report(Finished, p, 0) && reports[1] == Report(Canceled, p, 0)
            && Repeats(setup, inv, false)
  {
    var inv := Invocation([Written(p)], Success, [], [false], []);
    assert Front(inv.events) == [];
    assert Produced(inv.events) == p;
    assert forall k :: 0 <= k < |inv.events| ==> !inv.events[k].CancelRequest?;
    assert PostedCount(setup.periodic, inv.events) == 0;
    RepeatsIff(setup, inv, false);
  }

  /** One run of a new task. */
  method RunFresh(setup: Setup, inv: Invocation) returns (posted: seq<byte>, droped: int, reports: seq<Report>)
    ensures |reports| == (if Stops(inv, false) then 1 else 0) + (if Concludes(inv, false) then 1 else 0)
    ensures Concludes(inv, false) ==>
              var end := reports[if StopsFirst(inv) then |reports| - 1 else 0];
              && Delivered(Produced(inv.events), posted, end.output, Quota(setup))
              && droped == end.droped == Over(|Produced(inv.events)|, Quota(setup))
    ensures !Stops(inv, false) && !Concludes(inv, false) ==> reports == [] && droped == 0
    ensures setup.periodic ==> posted == []
  {
    var task := new Task(setup);
    task.Run(inv);
    posted, droped, reports := task.posted, task.droped, task.reports;
    StopWithin(setup, inv);
    if Concludes(inv, false) {
      ConcludedRunDelivers(setup, inv, false, 0);
      ConcludedRunDelivers(setup, inv, false, StopDrop(setup, inv, false));
    }
    hide Produced, ReadCount, PostedCount, Quota, Stops;
  }

  lemma StopWithin(setup: Setup, inv: Invocation)
    ensures ReadAtStop(setup, inv) <= |Produced(inv.events)|
  {
    assert inv.events[..|inv.events|] == inv.events;
    CountsGrow(setup.periodic, inv.events, |Until(inv)|);
  }

  // ------------------------------------------------------------ Which reports are made

  /** The cancel requests among the events, quiet ones being true. */
  function QuietFlags(events: seq<Event>): seq<bool> {
    if events == [] then []
    else QuietFlags(Front(events)) + (if Last(events).CancelRequest? then [Last(events).quietly] else [])
  }

  /** All cancel requests of an invocation in the order they arrive. */
  function Requests(inv: Invocation): seq<bool> {
    QuietFlags(inv.events) + inv.drained + inv.concluded + inv.cleaned
  }

  lemma {:induction false} FirstFlag(events: seq<Event>)
    ensures HasCancel(events) <==> QuietFlags(events) != []
    ensures HasCancel(events) <==> exists e :: e in events && e.CancelRequest?
    ensures HasCancel(events) ==> QuietFlags(events)[0] == events[FirstCancel(events)].quietly
  {
    if events != [] {
      FirstFlag(Front(events));
      assert forall e :: e in events <==> e in Front(events) || e == Last(events);
    }
  }

  lemma FirstRequest(inv: Invocation)
    ensures Requested(inv) <==> Requests(inv) != []
    ensures Requested(inv) ==> FirstIsQuiet(inv) == Requests(inv)[0]
  {
    FirstFlag(inv.events);
    hide QuietFlags, FirstCancel;
  }

  ghost predicate Has(reports: seq<Report>, status: Status) {
    exists r :: r in reports && r.status == status
  }

  lemma HasIn(a: seq<Report>, b: seq<Report>, status: Status)
    ensures Has(a + b, status) <==> Has(a, status) || Has(b, status)
  {
    if Has(a, status) {
      var r :| r in a && r.status == status;
      assert r in a + b;
    }
    if Has(b, status) {
      var r :| r in b && r.status == status;
      assert r in a + b;
    }
  }

  lemma HasStop(setup: Setup, inv: Invocation, canceled: bool, droped: int, status: Status)
    ensures Has(StopReports(setup, inv, canceled, droped), status) <==>
            status == Canceled && !canceled && Requests(inv) != [] && !Requests(inv)[0]
  {
    FirstRequest(inv);
    hide Requested, FirstIsQuiet, Requests, Produced, PostedCount, ReadAtStop;
    var stops := StopReports(setup, inv, canceled, droped);
    if Stops(inv, canceled) { assert stops[0] in stops && stops[0].status == Canceled; }
  }

  lemma HasEnd(setup: Setup, inv: Invocation, canceled: bool, droped: int, status: Status)
    ensures Has(EndReports(setup, inv, canceled, droped), status) <==>
            match status
            case Failed => inv.ending == Fail
            case TimedOut => inv.ending == Timeout
            case Finished =>
              && inv.ending == Success && !canceled && inv.drained == []
              && !exists e :: e in inv.events && e.CancelRequest?
            case Canceled => false
  {
    FirstFlag(inv.events);
    hide Produced, PostedCount, HasCancel;
    var ends := EndReports(setup, inv, canceled, droped);
    if Concludes(inv, canceled) { assert ends[0] in ends; }
  }

  /** A process that fails or times out is always reported as such, one that ends by itself exactly if no cancel request
      came before the decision; a cancellation is reported exactly if the first request is not quiet. */
  lemma ReportedAs(setup: Setup, inv: Invocation, canceled: bool, droped: int)
    ensures var reports := Reports(setup, inv, canceled, droped);
            && (Has(reports, Failed) <==> inv.ending == Fail)
            && (Has(reports, TimedOut) <==> inv.ending == Timeout)
            && (Has(reports, Finished) <==>
                inv.ending == Success && !canceled && inv.drained == []
                && !exists e :: e in inv.events && e.CancelRequest?)
            && (Has(reports, Canceled) <==> !canceled && Requests(inv) != [] && !Requests(inv)[0])
  {
    HasReport(setup, inv, canceled, droped, Failed);
    HasReport(setup, inv, canceled, droped, TimedOut);
    HasReport(setup, inv, canceled, droped, Finished);
    HasReport(setup, inv, canceled, droped, Canceled);
    hide Reports, Requests, Has;
  }

  lemma HasReport(setup: Setup, inv: Invocation, canceled: bool, droped: int, status: Status)
    ensures Has(Reports(setup, inv, canceled, droped), status) <==>
            match status
            case Failed => inv.ending == Fail
            case TimedOut => inv.ending == Timeout
            case Finished =>
              && inv.ending == Success && !canceled && inv.drained == []
              && !exists e :: e in inv.events && e.CancelRequest?
            case Canceled => !canceled && Requests(inv) != [] && !Requests(inv)[0]
  {
    hide Reports, StopReports, EndReports, Requests, Has;
    EitherReport(setup, inv, canceled, droped, status);
    HasEnd(setup, inv, canceled, droped, status);
    HasStop(setup, inv, canceled, droped, status);
  }

  lemma EitherReport(setup: Setup, inv: Invocation, canceled: bool, droped: int, status: Status)
    ensures Has(Reports(setup, inv, canceled, droped), status) <==>
            || Has(StopReports(setup, inv, canceled, droped), status)
            || Has(EndReports(setup, inv, canceled, droped), status)
  {
    var first, second := Latest(StopDrop(setup, inv, canceled), droped), Latest(EndDrop(setup, inv, canceled), droped);
    HasIn(StopReports(setup, inv, canceled, droped), EndReports(setup, inv, canceled, first), status);
    HasIn(EndReports(setup, inv, canceled, droped), StopReports(setup, inv, canceled, second), status);
    HasEnd(setup, inv, canceled, droped, status);
    HasEnd(setup, inv, canceled, first, status);
    HasStop(setup, inv, canceled, droped, status);
    HasStop(setup, inv, canceled, second, status);
    hide StopReports, EndReports, Has, Requests, StopDrop, EndDrop, StopsFirst;
  }

  /** Of two reports exactly one is that of the cancellation; it is the first exactly if a request came while the
      process ran or before the decision on the final report. */
  lemma ReportOrder(setup: Setup, inv: Invocation, canceled: bool, droped: int)
    ensures var reports := Reports(setup, inv, canceled, droped);
            && |reports| <= 2
            && (|reports| == 2 ==>
                  if inv.drained != [] || exists e :: e in inv.events && e.CancelRequest?
                  then reports[0].status == Canceled != reports[1].status
                  else reports[0].status != Canceled == reports[1].status)
  {
    FirstFlag(inv.events);
    hide HasCancel, Produced, PostedCount, ReadAtStop;
  }

  // ------------------------------------------------------------ In plain numbers

  function AtLeast12000(n: int): nat {
    if n < 12000 then 12000 else n
  }

  lemma QuotaIs(setup: Setup)
    ensures Quota(setup) == AtLeast12000(setup.logQuota)
  {
  }

  /** How one event changes what is written, read and posted. */
  lemma EventCounts(periodic: bool, events: seq<Event>, e: Event)
    ensures var all := events + [e];
            var size, read, sent := |Produced(events)|, ReadCount(periodic, events), PostedCount(periodic, events);
            && Produced(all) == (if e.Written? then Produced(events) + e.p else Produced(events))
            && ReadCount(periodic, all) == (if !e.Beat? || periodic then read
                                            else if size < read + 2048 then size
                                            else read + 2048)
            && PostedCount(periodic, all) == (if !e.Beat? || sent > 6000 then sent else ReadCount(periodic, all))
  {
    assert Front(events + [e]) == events && Last(events + [e]) == e;
    hide Front, Last;
  }

  lemma NothingYet(periodic: bool)
    ensures Produced([]) == [] && ReadCount(periodic, []) == 0 && PostedCount(periodic, []) == 0
  {
  }

  /** Of output that is there from the start, each beat takes 2048 bytes and the first three post theirs. */
  lemma {:induction false} SteadyBeats(p: seq<byte>, k: nat) returns (events: seq<Event>)
    ensures |events| == k + 1 && events[0] == Written(p) && forall i :: 1 <= i <= k ==> events[i] == Beat(false)
    ensures Produced(events) == p
    ensures ReadCount(false, events) == Min(|p|, 2048 * k)
    ensures PostedCount(false, events) == Min(|p|, 2048 * Min(k, 3))
  {
    hide Produced, ReadCount, PostedCount;
    if k == 0 {
      NothingYet(false);
      EventCounts(false, [], Written(p));
      events := [] + [Written(p)];
    } else {
      events := SteadyBeats(p, k - 1);
      EventCounts(false, events, Beat(false));
      events := events + [Beat(false)];
    }
  }

  /** What a cancel report holds: after the process the same bytes as a final report, once they are cleaned nothing, and
      while the process runs those kept by then. */
  lemma CancelFinds(setup: Setup, inv: Invocation, droped: int)
    requires Requests(inv) != [] && !Requests(inv)[0]
    ensures |StopReports(setup, inv, false, droped)| == 1
    ensures var stop, quota := StopReports(setup, inv, false, droped)[0].output, AtLeast12000(setup.logQuota);
            var c := FirstCancel(inv.events);
            if c < |inv.events| then
              var until := inv.events[..c];
              var sent, read := PostedCount(setup.periodic, until), ReadCount(setup.periodic, until);
              && sent + Over(read, quota) <= read
              && stop == Produced(until)[sent + Over(read, quota)..read]
            else if inv.drained + inv.concluded == [] then stop == []
            else
              var produced, sent := Produced(inv.events), PostedCount(setup.periodic, inv.events);
              sent + Over(|produced|, quota) <= |produced| && stop == produced[sent + Over(|produced|, quota)..]
  {
    FirstRequest(inv);
    hide Requests, Produced, PostedCount, ReadCount, FirstCancel;
  }

  /** What is over a quota, and which count a report tells: its own cut, or the one in force if it cuts nothing. */
  lemma CountTold(setup: Setup, inv: Invocation, canceled: bool, droped: int)
    ensures forall r :: r in EndReports(setup, inv, canceled, droped) ==>
                          var size, quota := |Produced(inv.events)|, AtLeast12000(setup.logQuota);
                          r.droped == if size > quota then size - quota else droped
    ensures forall r :: r in StopReports(setup, inv, canceled, droped) ==>
                          var read, quota := ReadAtStop(setup, inv), AtLeast12000(setup.logQuota);
                          r.droped == if read > quota then read - quota else droped
  {
    hide Produced, PostedCount, ReadCount, FirstCancel, ReadAtStop;
  }
}
