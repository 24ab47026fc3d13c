/**
  Background jobs (a download, an unzip) as the polling loops observe them.

  The worker runs on another thread; what the foreground loop sees on each
  poll is recorded as one `Tick`: the byte counters, the answer the progress
  dialog gave to `update`/`pulse` (false once the user clicked Cancel) and
  the job's state. A trace of ticks stands for the worker and the user.
  The loops in the source run until the job finishes; a trace whose last
  tick stops the loop (`Terminates`) is one that the loop gets through.
*/
module Progress {

  /** Job states: `isFinished` is "not Running", `isSuccess` is Succeeded,
      `isNonSuccess` is Failed or Aborted. */
  datatype JobState = Running | Succeeded | Failed | Aborted {
    predicate Finished() { !Running? }
  }

  datatype Tick = Tick(current: nat, total: nat, answer: bool, state: JobState)

  /** What a poll shows in the progress dialog. */
  datatype Report = Update(percent: int) | Pulse

  /** The percentage shown for `current` of `total` bytes, kept below 100 so
      the dialog does not close itself. */
  function Percent(current: nat, total: nat): (p: int)
    requires total > 0
    ensures 0 <= p <= 99
    ensures current < total ==> p * total <= current * 100 < (p + 1) * total
    ensures current >= total ==> p == 99
  {
    var q := current * 100 / total;
    QuotientBounds(current, total);
    if q >= 100 then 99 else q
  }

  lemma QuotientBounds(c: nat, t: nat)
    requires t > 0
    ensures (c * 100 / t) * t <= c * 100 < (c * 100 / t + 1) * t
    ensures c < t <==> c * 100 / t < 100
  {
  }

  /** The dialog call one poll makes: a percentage when the size is known,
      a pulse otherwise. */
  function ReportFor(t: Tick): (r: Report)
    ensures r.Pulse? <==> t.total == 0
    ensures r.Update? ==> 0 <= r.percent <= 99
  {
    if t.total != 0 then Update(Percent(t.current, t.total)) else Pulse
  }

  /** The dialog calls made by the polls `ts`, in order. */
  function Reports(ts: seq<Tick>): (rs: seq<Report>)
    ensures |rs| == |ts|
  {
    if ts == [] then [] else [ReportFor(ts[0])] + Reports(ts[1..])
  }

  lemma {:induction false} ReportsAppend(ts: seq<Tick>, t: Tick)
    ensures Reports(ts + [t]) == Reports(ts) + [ReportFor(t)]
  {
    if ts != [] {
      assert (ts + [t])[1..] == ts[1..] + [t];
      ReportsAppend(ts[1..], t);
    }
  }

  /** Every percentage a poll loop shows is at most 99, and every poll that
      does not know the size pulses instead. */
  lemma {:induction false} ReportsBounded(ts: seq<Tick>)
    ensures forall i :: 0 <= i < |ts| ==> (Reports(ts)[i].Pulse? <==> ts[i].total == 0)
    ensures forall i :: 0 <= i < |ts| && Reports(ts)[i].Update? ==> Reports(ts)[i].percent <= 99
  {
    if ts != [] {
      ReportsBounded(ts[1..]);
      assert forall i :: 1 <= i < |ts| ==> Reports(ts)[i] == Reports(ts[1..])[i - 1];
    }
  }

  /** A poll ends the loop: the job finished, or (in loops that give up on
      Cancel) the user cancelled. */
  predicate Halts(t: Tick, cancelHalts: bool) {
    t.state.Finished() || (cancelHalts && !t.answer)
  }

  predicate Terminates(ts: seq<Tick>, cancelHalts: bool) {
    |ts| > 0 && Halts(ts[|ts| - 1], cancelHalts)
  }

  /** The index of the poll that ends the loop. */
  function HaltIndex(ts: seq<Tick>, cancelHalts: bool): (k: nat)
    requires Terminates(ts, cancelHalts)
    ensures k < |ts| && Halts(ts[k], cancelHalts)
    ensures forall j :: 0 <= j < k ==> !Halts(ts[j], cancelHalts)
  {
    if Halts(ts[0], cancelHalts) then 0 else 1 + HaltIndex(ts[1..], cancelHalts)
  }

  /** The poll that ends the loop. */
  function Final(ts: seq<Tick>, cancelHalts: bool): Tick
    requires Terminates(ts, cancelHalts)
  {
    ts[HaltIndex(ts, cancelHalts)]
  }

  /** The polls the loop makes, up to and including the one that ends it. */
  function Polled(ts: seq<Tick>, cancelHalts: bool): seq<Tick>
    requires Terminates(ts, cancelHalts)
  {
    ts[..HaltIndex(ts, cancelHalts) + 1]
  }

  /** The unzip loop only waits for the job: the state it ends on is the
      first finished one. */
  predicate StatesTerminate(ss: seq<JobState>) {
    |ss| > 0 && ss[|ss| - 1].Finished()
  }

  /** The index of the poll at which the unzip loop stops waiting. */
  function FinishIndex(ss: seq<JobState>): (k: nat)
    requires StatesTerminate(ss)
    ensures k < |ss| && ss[k].Finished()
    ensures forall j :: 0 <= j < k ==> !ss[j].Finished()
  {
    if ss[0].Finished() then 0 else 1 + FinishIndex(ss[1..])
  }

  function FinalState(ss: seq<JobState>): JobState
    requires StatesTerminate(ss)
  {
    ss[FinishIndex(ss)]
  }
}
