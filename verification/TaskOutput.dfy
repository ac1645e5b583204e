/** Where the output bytes of a task invocation go: posted while it runs, kept for a report, or dropped. */
module TaskOutput {

  newtype byte = x: int | 0 <= x < 256

  const DEFAULT_QUOTO := 12000
  const DEFAULT_QUOTO_PRE := 6000
  const READ_SIZE := 2048
  const TWO_TO_THE_32 := 0x1_0000_0000

  /** The buffer between the command process and its task. */
  class SafeBuffer {
    var buffer: seq<byte>

    constructor ()
      ensures buffer == []
    {
      buffer := [];
    }

    method Write(p: seq<byte>)
      modifies this
      ensures buffer == old(buffer) + p
    {
      buffer := buffer + p;
    }

    /** Takes up to `size` bytes off the front. */
    method Read(size: nat) returns (p: seq<byte>)
      modifies this`buffer
      ensures var n := Min(|old(buffer)|, size); p == old(buffer)[..n] && buffer == old(buffer)[n..]
    {
      var n := if |buffer| < size then |buffer| else size;
      p := buffer[..n];
      buffer := buffer[n..];
    }
  }

  // ------------------------------------------------------------ The reference: where the bytes should go

  /** What happens while the command process runs. */
  datatype Event = Written(p: seq<byte>) | Beat(withinMinute: bool) | CancelRequest(quietly: bool)

  /** How the process ends; any other status is treated like success. */
  datatype Ending = Success | Fail | Timeout

  /** One invocation: what happens while the process runs, how it ends, and the cancel requests that arrive after
      that, quiet ones being true: before the final report is decided on, before the kept output is cleaned,
      and afterwards. */
  datatype Invocation = Invocation(events: seq<Event>, ending: Ending, drained: seq<bool>, concluded: seq<bool>,
                                   cleaned: seq<bool>)

  datatype Status = Finished | Failed | TimedOut | Canceled

  /** What the server is told at a cancellation or at the end, with the dropped count in force. */
  datatype Report = Report(status: Status, output: seq<byte>, droped: int)

  /** The settings of a task; `periodic` is having a cron, rate or at expression. */
  datatype Setup = Setup(periodic: bool, logQuota: int, skipEmpty: bool)

  function Quota(setup: Setup): (quota: int)
    ensures quota == setup.logQuota || setup.logQuota < quota == DEFAULT_QUOTO
    ensures quota >= DEFAULT_QUOTO
  {
    if setup.logQuota < DEFAULT_QUOTO then DEFAULT_QUOTO else setup.logQuota
  }

  function Front(events: seq<Event>): seq<Event>
    requires events != []
  {
    events[..|events| - 1]
  }

  function Last(events: seq<Event>): Event
    requires events != []
  {
    events[|events| - 1]
  }

  /** All bytes the process writes. */
  function Produced(events: seq<Event>): seq<byte> {
    if events == [] then []
    else if Last(events).Written? then Produced(Front(events)) + Last(events).p
    else Produced(Front(events))
  }

  function Min(a: nat, b: nat): nat {
    if a < b then a else b
  }

  /** How many bytes the beats have read: a block each; those of a periodic task read nothing. */
  function ReadCount(periodic: bool, events: seq<Event>): (n: nat)
    ensures n <= |Produced(events)|
  {
    if events == [] then 0
    else
      var before := ReadCount(periodic, Front(events));
      if Last(events).Beat? && !periodic then Min(|Produced(events)|, before + READ_SIZE) else before
  }

  /** How many of them have been posted: what is read is posted up to the early quota and kept after it. */
  function PostedCount(periodic: bool, events: seq<Event>): (n: nat)
    ensures n <= ReadCount(periodic, events)
    ensures n == ReadCount(periodic, events) || n > DEFAULT_QUOTO_PRE
    ensures n <= DEFAULT_QUOTO_PRE + READ_SIZE
    ensures periodic ==> n == 0
  {
    if events == [] then 0
    else
      var before := PostedCount(periodic, Front(events));
      if Last(events).Beat? && before <= DEFAULT_QUOTO_PRE then ReadCount(periodic, events) else before
  }

  /** The index of the first cancel request, or the length if there is none. */
  function FirstCancel(events: seq<Event>): (c: nat)
    ensures c <= |events|
    ensures c < |events| ==> events[c].CancelRequest?
    ensures forall i :: 0 <= i < c ==> !events[i].CancelRequest?
  {
    if events == [] then 0
    else
      var c := FirstCancel(Front(events));
      if c < |events| - 1 || Last(events).CancelRequest? then c else |events|
  }

  predicate HasCancel(events: seq<Event>) {
    FirstCancel(events) < |events|
  }

  /** How many bytes are beyond the quota. */
  function Over(count: nat, quota: nat): nat {
    if count <= quota then 0 else count - quota
  }

  function Latest(drop: int, before: int): int {
    if drop == 0 then before else drop
  }

  /** The report on the bytes posted..upto, the bytes over the quota cut from its front. */
  function ReportOn(status: Status, produced: seq<byte>, posted: nat, upto: nat, quota: nat, droped: int): Report
    requires posted <= upto <= |produced| && posted <= quota
  {
    Report(status, produced[posted + Over(upto, quota)..upto], Latest(Over(upto, quota), droped))
  }

  predicate Early(inv: Invocation) {
    HasCancel(inv.events)
  }

  function LateRequests(inv: Invocation): seq<bool> {
    inv.drained + inv.concluded + inv.cleaned
  }

  predicate Requested(inv: Invocation) {
    Early(inv) || LateRequests(inv) != []
  }

  predicate FirstIsQuiet(inv: Invocation)
    requires Requested(inv)
  {
    if Early(inv) then inv.events[FirstCancel(inv.events)].quietly else LateRequests(inv)[0]
  }

  /** Only the first cancel request counts; it reports what is kept then, unless it is to be quiet. */
  predicate Stops(inv: Invocation, canceled: bool) {
    !canceled && Requested(inv) && !FirstIsQuiet(inv)
  }

  /** What happens up to the first cancel request. */
  function Until(inv: Invocation): seq<Event> {
    if Early(inv) then inv.events[..FirstCancel(inv.events)] else inv.events
  }

  /** How far the bytes kept at the first cancel request reach: after the process, to the end of the output; once
      they have been cleaned, nowhere. */
  function ReadAtStop(setup: Setup, inv: Invocation): (n: nat)
    ensures PostedCount(setup.periodic, Until(inv)) <= n <= |Produced(Until(inv))|
  {
    if Early(inv) then ReadCount(setup.periodic, Until(inv))
    else if inv.drained + inv.concluded != [] then |Produced(inv.events)|
    else PostedCount(setup.periodic, inv.events)
  }

  function StopReports(setup: Setup, inv: Invocation, canceled: bool, droped: int): seq<Report> {
    if !Stops(inv, canceled) then []
    else
      [ReportOn(Canceled, Produced(Until(inv)), PostedCount(setup.periodic, Until(inv)), ReadAtStop(setup, inv),
                Quota(setup), droped)]
  }

  function StopDrop(setup: Setup, inv: Invocation, canceled: bool): nat {
    if Stops(inv, canceled) then Over(ReadAtStop(setup, inv), Quota(setup)) else 0
  }

  predicate StopsFirst(inv: Invocation) {
    Early(inv) || inv.drained != []
  }

  /** A process that ends by itself is reported unless the task has been canceled by then. */
  predicate Concludes(inv: Invocation, canceled: bool) {
    inv.ending != Success || !(canceled || StopsFirst(inv))
  }

  function StatusOf(ending: Ending): Status {
    match ending
    case Success => Finished
    case Fail => Failed
    case Timeout => TimedOut
  }

  function EndReports(setup: Setup, inv: Invocation, canceled: bool, droped: int): seq<Report> {
    if !Concludes(inv, canceled) then []
    else
      var produced := Produced(inv.events);
      [ReportOn(StatusOf(inv.ending), produced, PostedCount(setup.periodic, inv.events), |produced|, Quota(setup),
                droped)]
  }

  function EndDrop(setup: Setup, inv: Invocation, canceled: bool): nat {
    if Concludes(inv, canceled) then Over(|Produced(inv.events)|, Quota(setup)) else 0
  }

  /** The reports of an invocation in their order, each with the dropped count in force. */
  function Reports(setup: Setup, inv: Invocation, canceled: bool, droped: int): seq<Report> {
    if StopsFirst(inv) then
      StopReports(setup, inv, canceled, droped)
      + EndReports(setup, inv, canceled, Latest(StopDrop(setup, inv, canceled), droped))
    else
      EndReports(setup, inv, canceled, droped)
      + StopReports(setup, inv, canceled, Latest(EndDrop(setup, inv, canceled), droped))
  }

  /** How many bytes the reports of this run drop; a cancel request after the final report drops no others. */
  function DropOf(setup: Setup, inv: Invocation, canceled: bool): nat {
    Latest(EndDrop(setup, inv, canceled), StopDrop(setup, inv, canceled))
  }

  // ------------------------------------------------------------ The task

  class Task {
    const setup: Setup

    var output: seq<byte>
    var dataSended: int
    var droped: int
    var canceled: bool
    /** The bytes handed to the server as running output of this run, in order. */
    var posted: seq<byte>
    /** The reports of this run, in order. */
    var reports: seq<Report>

    constructor (setup: Setup)
      ensures this.setup == setup
      ensures output == [] && droped == 0 && !canceled
    {
      this.setup := setup;
      output, dataSended, droped, canceled := [], 0, 0, false;
      posted, reports := [], [];
    }

    /** Nothing lost, duplicated or reordered: of the bytes written the first have been posted, the next are
        kept and the rest is still unread. */
    ghost predicate Accounted(b: SafeBuffer, events: seq<Event>)
      reads this, b
    {
      var produced := Produced(events);
      var sent, read := PostedCount(setup.periodic, events), ReadCount(setup.periodic, events);
      && dataSended == sent
      && posted == produced[..sent] && output == produced[sent..read] && b.buffer == produced[read..]
    }

    /** Reads at most one block from the buffer into the kept output. */
    method TryRead(b: SafeBuffer)
      modifies this`output, b`buffer
      ensures var n := Min(|old(b.buffer)|, READ_SIZE);
              output == old(output) + old(b.buffer)[..n] && b.buffer == old(b.buffer)[n..]
    {
      var p := b.Read(READ_SIZE);
      output := output + p;
    }

    /** Reads everything that is left in the buffer into the kept output. */
    method TryReadAll(b: SafeBuffer)
      modifies this`output, b`buffer
      ensures output == old(output) + old(b.buffer) && b.buffer == []
    {
      while true
        invariant output + b.buffer == old(output) + old(b.buffer)
        decreases |b.buffer|
      {
        var p := b.Read(READ_SIZE);
        output := output + p;
        if |p| == 0 {
          break;
        }
      }
    }

    /** Posts `data`; an empty post may be skipped for up to a minute. */
    method SendRunningOutput(data: seq<byte>, withinMinute: bool) returns (reported: bool)
      modifies this`posted
      ensures posted == old(posted) + data
      ensures !reported ==> data == []
    {
      if |data| == 0 && setup.skipEmpty && withinMinute {
        return false;
      }
      posted := posted + data;
      reported := true;
    }

    /** One beat of the reporting ticker, which a periodic task does not start. */
    method Tick(b: SafeBuffer, withinMinute: bool, ghost events: seq<Event>)
      requires Accounted(b, events) && !setup.periodic
      modifies this`output, this`dataSended, this`posted, b`buffer
      ensures Accounted(b, events + [Beat(withinMinute)])
    {
      hide Produced, ReadCount, PostedCount;
      ghost var sent, read := PostedCount(false, events), ReadCount(false, events);
      ghost var all := events + [Beat(withinMinute)];
      assert Front(all) == events;
      ReadByBeat(all);
      PostedByBeat(all);
      BlockRead(Produced(events), sent, read, Min(|b.buffer|, READ_SIZE));
      assert read + Min(|b.buffer|, READ_SIZE) == Min(|Produced(events)|, read + READ_SIZE);
      if dataSended > DEFAULT_QUOTO_PRE {
        TryRead(b);
        var _ := SendRunningOutput([], withinMinute);
      } else {
        var runningOutput := b.Read(READ_SIZE);
        var _ := SendRunningOutput(runningOutput, withinMinute);
        NoWrap(dataSended + |runningOutput|);
        dataSended := (dataSended + |runningOutput|) % TWO_TO_THE_32;
      }
    }

    /** The kept output cut from the front to what the quota leaves after the running output. */
    method GetReportString() returns (report: seq<byte>)
      requires 0 <= dataSended <= DEFAULT_QUOTO_PRE + READ_SIZE
      modifies this`droped
      ensures var cut := Over(dataSended + |output|, Quota(setup));
              && 0 <= cut <= |output|
              && report == output[cut..]
              && droped == Latest(cut, old(droped))
    {
      var quoto := setup.logQuota;
      if quoto < DEFAULT_QUOTO {
        quoto := DEFAULT_QUOTO;
      }
      if |output| <= quoto - dataSended {
        report := output;
      } else {
        droped := |output| - (quoto - dataSended);
        report := output[droped..];
      }
    }

    /** Reports to the server, with the dropped count as it is after cutting the output. */
    method SendReport(status: Status, ghost produced: seq<byte>, ghost sent: nat, ghost read: nat)
      requires sent <= read <= |produced| && dataSended == sent <= DEFAULT_QUOTO_PRE + READ_SIZE
      requires output == produced[sent..read]
      modifies this`droped, this`reports
      ensures reports == old(reports) + [ReportOn(status, produced, sent, read, Quota(setup), old(droped))]
      ensures droped == Latest(Over(read, Quota(setup)), old(droped))
    {
      var report := GetReportString();
      reports := reports + [Report(status, report, droped)];
    }

    /** Stops the task once, reporting what has been kept so far unless told to be quiet. */
    method Cancel(quietly: bool, ghost produced: seq<byte>, ghost sent: nat, ghost read: nat)
      requires sent <= read <= |produced| && dataSended == sent <= DEFAULT_QUOTO_PRE + READ_SIZE
      requires output == produced[sent..read]
      modifies this`canceled, this`droped, this`reports
      ensures canceled
      ensures if old(canceled) || quietly then reports == old(reports) && droped == old(droped)
              else
                && droped == Latest(Over(read, Quota(setup)), old(droped))
                && reports == old(reports) + [ReportOn(Canceled, produced, sent, read, Quota(setup), old(droped))]
    {
      if canceled {
        return;
      }
      canceled := true;
      if !quietly {
        SendReport(Canceled, produced, sent, read);
      }
    }

    /** Cancel requests that arrive one after the other while the kept output stays the same. */
    method CancelAll(requests: seq<bool>, ghost produced: seq<byte>, ghost sent: nat, ghost read: nat)
      requires sent <= read <= |produced| && dataSended == sent <= DEFAULT_QUOTO_PRE + READ_SIZE
      requires output == produced[sent..read]
      modifies this`canceled, this`droped, this`reports
      ensures canceled == (old(canceled) || requests != [])
      ensures if old(canceled) || requests == [] || requests[0] then reports == old(reports) && droped == old(droped)
              else
                && droped == Latest(Over(read, Quota(setup)), old(droped))
                && reports == old(reports) + [ReportOn(Canceled, produced, sent, read, Quota(setup), old(droped))]
    {
      hide ReportOn;
      for i := 0 to |requests|
        invariant canceled == (old(canceled) || i > 0)
        invariant if old(canceled) || i == 0 || requests[0] then reports == old(reports) && droped == old(droped)
                  else
                    && droped == Latest(Over(read, Quota(setup)), old(droped))
                    && reports == old(reports) + [ReportOn(Canceled, produced, sent, read, Quota(setup), old(droped))]
      {
        Cancel(requests[i], produced, sent, read);
      }
    }

    /** One event while the process runs. */
    method Step(b: SafeBuffer, ghost events: seq<Event>, e: Event)
      requires Accounted(b, events)
      modifies this`output, this`dataSended, this`posted, this`canceled, this`droped, this`reports, b
      ensures Accounted(b, events + [e])
      ensures !e.CancelRequest? ==> canceled == old(canceled) && droped == old(droped) && reports == old(reports)
      ensures e.CancelRequest? ==> canceled
      ensures e.CancelRequest? && (old(canceled) || e.quietly) ==> reports == old(reports) && droped == old(droped)
      ensures e.CancelRequest? && !old(canceled) && !e.quietly ==>
                var read := ReadCount(setup.periodic, events);
                && droped == Latest(Over(read, Quota(setup)), old(droped))
                && reports == old(reports)
                              + [ReportOn(Canceled, Produced(events), PostedCount(setup.periodic, events), read,
                                          Quota(setup), old(droped))]
    {
      ghost var all := events + [e];
      assert Front(all) == events;
      match e {
        case Written(p) =>
          b.Write(p);
          Extended(Produced(events), p, PostedCount(setup.periodic, events), ReadCount(setup.periodic, events));
        case Beat(withinMinute) =>
          if !setup.periodic {
            Tick(b, withinMinute, events);
          }
        case CancelRequest(quietly) =>
          Cancel(quietly, Produced(events), PostedCount(setup.periodic, events), ReadCount(setup.periodic, events));
      }
    }

    /** The process writes, the ticker beats and cancel requests arrive in any order. */
    method Process(inv: Invocation) returns (stdouterr: SafeBuffer)
      requires output == []
      modifies this`output, this`dataSended, this`posted, this`reports, this`droped, this`canceled
      ensures fresh(stdouterr) && Accounted(stdouterr, inv.events)
      ensures canceled == (old(canceled) || Early(inv))
      ensures reports == StopReports(setup, Running(inv), old(canceled), old(droped))
      ensures droped == Latest(StopDrop(setup, Running(inv), old(canceled)), old(droped))
    {
      hide Produced, ReadCount, PostedCount, HasCancel, StopReports, StopDrop, ReportOn;
      stdouterr := new SafeBuffer();
      dataSended := 0;
      posted, reports := [], [];
      NothingStarted(setup);
      NothingStopped(setup, UpTo(inv, 0), canceled, droped);
      for i := 0 to |inv.events|
        invariant fresh(stdouterr) && Accounted(stdouterr, UpTo(inv, i).events)
        invariant canceled == (old(canceled) || HasCancel(UpTo(inv, i).events))
        invariant reports == StopReports(setup, UpTo(inv, i), old(canceled), old(droped))
        invariant droped == Latest(StopDrop(setup, UpTo(inv, i), old(canceled)), old(droped))
      {
        StopStep(setup, inv, i, old(canceled), old(droped));
        Step(stdouterr, inv.events[..i], inv.events[i]);
        assert inv.events[..i] + [inv.events[i]] == inv.events[..i + 1];
      }
      assert UpTo(inv, |inv.events|) == Running(inv);
    }

    /** What is left has been read: cancel requests may still come, then the final report is made if one is due. */
    method Conclude(inv: Invocation, ghost produced: seq<byte>, ghost sent: nat)
      requires sent <= |produced| && dataSended == sent <= DEFAULT_QUOTO_PRE + READ_SIZE && output == produced[sent..]
      modifies this`reports, this`droped, this`canceled
      ensures canceled == (old(canceled) || inv.drained != [])
      ensures var size, quota := |produced|, Quota(setup);
              var stops := !old(canceled) && inv.drained != [] && !inv.drained[0];
              var ends := inv.ending != Success || !canceled;
              var between := if stops then Latest(Over(size, quota), old(droped)) else old(droped);
              && reports == old(reports)
                            + (if stops then [ReportOn(Canceled, produced, sent, size, quota, old(droped))] else [])
                            + (if ends then [ReportOn(StatusOf(inv.ending), produced, sent, size, quota, between)]
                               else [])
              && droped == if ends then Latest(Over(size, quota), between) else between
    {
      hide ReportOn;
      CancelAll(inv.drained, produced, sent, |produced|);
      if inv.ending != Success || !canceled {
        SendReport(StatusOf(inv.ending), produced, sent, |produced|);
      }
    }

    /** The output side of one invocation: the process runs, what is left is read, the final report is made if one is
        due, and the kept output is cleaned; cancel requests may arrive all along. */
    method Run(inv: Invocation)
      requires output == []
      modifies this`output, this`dataSended, this`posted, this`reports, this`droped, this`canceled
      ensures output == []
      ensures canceled == (old(canceled) || Requested(inv))
      ensures posted == Produced(inv.events)[..PostedCount(setup.periodic, inv.events)]
      ensures reports == Reports(setup, inv, old(canceled), old(droped))
      ensures droped == Latest(DropOf(setup, inv, old(canceled)), old(droped))
    {
      hide Produced, ReadCount, PostedCount, HasCancel, ReportOn, StopReports, StopDrop;
      var stdouterr := Process(inv);
      TryReadAll(stdouterr);
      ghost var produced, sent := Produced(inv.events), PostedCount(setup.periodic, inv.events);
      LateStop(setup, inv, old(canceled), old(droped));
      LateStop(setup, inv, old(canceled), Latest(EndDrop(setup, inv, old(canceled)), old(droped)));
      Conclude(inv, produced, sent);
      CancelAll(inv.concluded, produced, sent, |produced|);
      output := [];
      CancelAll(inv.cleaned, produced, sent, sent);
    }
  }

  /** A cancel request after the process finds the whole output kept, or nothing once it has been cleaned. */
  lemma LateStop(setup: Setup, inv: Invocation, canceled: bool, droped: int)
    ensures Early(inv) ==>
              && StopReports(setup, inv, canceled, droped) == StopReports(setup, Running(inv), canceled, droped)
              && StopDrop(setup, inv, canceled) == StopDrop(setup, Running(inv), canceled)
    ensures !Early(inv) ==>
              StopReports(setup, Running(inv), canceled, droped) == [] && StopDrop(setup, Running(inv), canceled) == 0
    ensures !Early(inv) ==>
              var late := LateRequests(inv);
              if canceled || late == [] || late[0] then
                StopReports(setup, inv, canceled, droped) == [] && StopDrop(setup, inv, canceled) == 0
              else
                var produced, sent := Produced(inv.events), PostedCount(setup.periodic, inv.events);
                var read := if inv.drained + inv.concluded != [] then |produced| else sent;
                && StopReports(setup, inv, canceled, droped)
                   == [ReportOn(Canceled, produced, sent, read, Quota(setup), droped)]
                && StopDrop(setup, inv, canceled) == Over(read, Quota(setup))
  {
    hide Produced, PostedCount, ReadCount, FirstCancel;
  }

  /** An invocation without what happens after the process. */
  function Running(inv: Invocation): Invocation {
    inv.(drained := [], concluded := [], cleaned := [])
  }

  /** The part of an invocation up to event `i`. */
  function UpTo(inv: Invocation, i: nat): Invocation
    requires i <= |inv.events|
  {
    Running(inv).(events := inv.events[..i])
  }

  lemma Extended(produced: seq<byte>, p: seq<byte>, a: nat, b: nat)
    requires a <= b <= |produced|
    ensures (produced + p)[..a] == produced[..a] && (produced + p)[a..b] == produced[a..b]
    ensures (produced + p)[b..] == produced[b..] + p
  {
  }

  /** A block more has been read. */
  lemma BlockRead(produced: seq<byte>, a: nat, b: nat, n: nat)
    requires a <= b <= b + n <= |produced|
    ensures produced[a..b] + produced[b..][..n] == produced[a..b + n]
    ensures produced[..b] + produced[b..][..n] == produced[..b + n]
    ensures produced[b..][n..] == produced[b + n..]
  {
  }

  lemma ReadByBeat(all: seq<Event>)
    requires all != [] && Last(all).Beat?
    ensures Produced(all) == Produced(Front(all))
    ensures ReadCount(false, all) == Min(|Produced(all)|, ReadCount(false, Front(all)) + READ_SIZE)
  {
    hide Front;
  }

  lemma PostedByBeat(all: seq<Event>)
    requires all != [] && Last(all).Beat?
    ensures var sent := PostedCount(false, Front(all));
            && PostedCount(false, all) == (if sent <= DEFAULT_QUOTO_PRE then ReadCount(false, all) else sent)
            && (sent <= DEFAULT_QUOTO_PRE ==> sent == ReadCount(false, Front(all)))
  {
    hide Front, ReadCount, Produced;
  }

  /** The 32-bit count of posted bytes does not wrap. */
  lemma NoWrap(count: int)
    requires 0 <= count <= DEFAULT_QUOTO_PRE + READ_SIZE
    ensures count % TWO_TO_THE_32 == count
  {
  }

  lemma NothingStarted(setup: Setup)
    ensures Produced([]) == [] && ReadCount(setup.periodic, []) == 0 && PostedCount(setup.periodic, []) == 0
  {
  }

  lemma NothingStopped(setup: Setup, inv: Invocation, canceled: bool, droped: int)
    requires inv == Running(inv) && inv.events == []
    ensures !HasCancel(inv.events) && StopReports(setup, inv, canceled, droped) == []
    ensures StopDrop(setup, inv, canceled) == 0
  {
  }

  /** One more event changes the cancel report only if it is the first cancel request. */
  lemma StopStep(setup: Setup, inv: Invocation, i: nat, canceled: bool, droped: int)
    requires i < |inv.events|
    ensures var before, after, e := UpTo(inv, i), UpTo(inv, i + 1), inv.events[i];
            && (HasCancel(after.events) <==> HasCancel(before.events) || e.CancelRequest?)
            && (!HasCancel(before.events) ==>
                  StopReports(setup, before, canceled, droped) == [] && StopDrop(setup, before, canceled) == 0)
            && if HasCancel(before.events) || !e.CancelRequest? || canceled || e.quietly then
                 && StopReports(setup, after, canceled, droped) == StopReports(setup, before, canceled, droped)
                 && StopDrop(setup, after, canceled) == StopDrop(setup, before, canceled)
               else
                 var sent := PostedCount(setup.periodic, before.events);
                 var read := ReadCount(setup.periodic, before.events);
                 && StopDrop(setup, after, canceled) == Over(read, Quota(setup))
                 && StopReports(setup, after, canceled, droped)
                    == [ReportOn(Canceled, Produced(before.events), sent, read, Quota(setup), droped)]
  {
    var before, after := inv.events[..i], inv.events[..i + 1];
    assert Front(after) == before;
    var c := FirstCancel(before);
    assert c < i ==> before[..c] == after[..c];
    assert after[..i] == before;
  }
}
