/**
  The host loader as an interleaved protocol: reader threads share an atomic counter and
  hand slices over a rendezvous channel to one uploading thread. A run is any sequence of
  enabled events; reads and uploads may fail at any point.
*/
module Loader {
  import opened Staging

  /** `bytes[i]` is the host size of record `i`, `resident[i]` the size of its device buffer. */
  datatype Config = Config(bytes: seq<nat>, resident: seq<nat>, workers: nat)

  /** A reader is about to fetch an index, reading a record, blocked in a send, or finished. */
  datatype Worker = Idle | Reading(index: nat) | Sending(index: nat, ok: bool) | Stopped

  datatype Main = Receiving | Uploading(index: nat) | Failed | Succeeded

  datatype Accounting = Accounting(readCount: nat, allocationCount: nat, uploadCount: nat, residentBytes: nat)

  /** `loaded` lists the records inserted into the transaction, in insertion order. */
  datatype State = State(next: nat, workers: seq<Worker>, main: Main, loaded: seq<nat>, accounting: Accounting)

  datatype Event =
    | Fetch(w: nat)
    | ReadDone(w: nat, ok: bool)
    | Receive(w: nat)
    | SendFails(w: nat)
    | UploadDone(ok: bool)
    | Disconnected

  ghost predicate ValidConfig(c: Config) {
    |c.resident| == |c.bytes| && c.workers > 0
  }

  function Initial(c: Config): State {
    State(0, seq(c.workers, _ => Idle), if |c.bytes| == 0 then Succeeded else Receiving, [], Accounting(0, 0, 0, 0))
  }

  predicate Finished(s: State) {
    (s.main.Failed? || s.main.Succeeded?) && forall w :: 0 <= w < |s.workers| ==> s.workers[w].Stopped?
  }

  predicate Enabled(s: State, e: Event) {
    match e
    case Fetch(w) => w < |s.workers| && s.workers[w].Idle?
    case ReadDone(w, ok) => w < |s.workers| && s.workers[w].Reading?
    case Receive(w) => s.main.Receiving? && w < |s.workers| && s.workers[w].Sending?
    // The receiver is dropped when the uploading loop returns, which fails every blocked send.
    case SendFails(w) => (s.main.Failed? || s.main.Succeeded?) && w < |s.workers| && s.workers[w].Sending?
    case UploadDone(ok) => s.main.Uploading?
    // Receiving fails only when every sender is gone.
    case Disconnected => s.main.Receiving? && forall w :: 0 <= w < |s.workers| ==> s.workers[w].Stopped?
  }

  function Apply(c: Config, s: State, e: Event): (next: State)
    requires ValidConfig(c) && Enabled(s, e)
  {
    match e
    case Fetch(w) =>
      s.(next := s.next + 1, workers := s.workers[w := if s.next < |c.bytes| then Reading(s.next) else Stopped])
    case ReadDone(w, ok) =>
      s.(workers := s.workers[w := Sending(s.workers[w].index, ok)])
    case Receive(w) =>
      var accepted := s.(workers := s.workers[w := Idle]);
      if s.workers[w].ok then
        accepted.(main := Uploading(s.workers[w].index),
          accounting := s.accounting.(readCount := s.accounting.readCount + 1))
      else accepted.(main := Failed)
    case SendFails(w) =>
      s.(workers := s.workers[w := Stopped])
    case UploadDone(ok) =>
      if ok then
        var index := s.main.index;
        var a := s.accounting;
        s.(loaded := s.loaded + [index],
           accounting := Accounting(a.readCount, a.allocationCount + 1, a.uploadCount + 1,
                                    a.residentBytes + (if index < |c.resident| then c.resident[index] else 0)),
           main := if |s.loaded| + 1 == |c.bytes| then Succeeded else Receiving)
      else s.(main := Failed)
    case Disconnected => s.(main := Failed)
  }

  datatype Reached = Disabled | At(state: State)

  /** The state a run of events leads to, when every event was enabled. */
  function Run(c: Config, events: seq<Event>): Reached
    requires ValidConfig(c)
  {
    if events == [] then At(Initial(c))
    else match Run(c, events[..|events| - 1])
      case Disabled => Disabled
      case At(s) =>
        if Enabled(s, events[|events| - 1]) then At(Apply(c, s, events[|events| - 1])) else Disabled
  }

  // ----- what every state keeps -----

  predicate Holds(worker: Worker, i: nat) {
    (worker.Reading? || worker.Sending?) && worker.index == i
  }

  ghost predicate Running(s: State) { !s.main.Failed? }

  /** Records in readers, in the uploading thread and in the transaction are pairwise different. */
  ghost predicate Separate(s: State) {
    && Distinct(s.loaded)
    && (forall v, w :: 0 <= v < w < |s.workers| && (s.workers[v].Reading? || s.workers[v].Sending?) ==>
          !Holds(s.workers[w], s.workers[v].index))
    && (forall w :: 0 <= w < |s.workers| && (s.workers[w].Reading? || s.workers[w].Sending?) ==>
          s.workers[w].index !in s.loaded && s.main != Uploading(s.workers[w].index))
    && (s.main.Uploading? ==> s.main.index !in s.loaded)
  }

  ghost predicate InRange(c: Config, s: State) {
    && |s.workers| == c.workers
    && (forall w :: 0 <= w < |s.workers| && (s.workers[w].Reading? || s.workers[w].Sending?) ==>
          s.workers[w].index < s.next && s.workers[w].index < |c.bytes|)
    && (forall i :: 0 <= i < |s.loaded| ==> s.loaded[i] < s.next && s.loaded[i] < |c.bytes|)
    && (s.main.Uploading? ==> s.main.index < s.next && s.main.index < |c.bytes|)
  }

  ghost predicate Somewhere(s: State, i: nat) {
    i in s.loaded || s.main == Uploading(i) || exists w :: 0 <= w < |s.workers| && Holds(s.workers[w], i)
  }

  /** Until a failure, no fetched record is lost, and a reader stops only when none is left to fetch. */
  ghost predicate NothingLost(c: Config, s: State) {
    Running(s) ==>
      && (forall i: nat :: i < s.next && i < |c.bytes| ==> Somewhere(s, i))
      && (forall w :: 0 <= w < |s.workers| && s.workers[w].Stopped? ==> s.next > |c.bytes|)
  }

  /** Allocations and uploads are counted per record, reads one ahead while a record is being uploaded. */
  ghost predicate Counted(s: State) {
    && s.accounting.allocationCount == s.accounting.uploadCount == |s.loaded|
    && (Running(s) ==> s.accounting.readCount == |s.loaded| + (if s.main.Uploading? then 1 else 0))
  }

  ghost predicate Sized(c: Config, s: State) {
    Below(s.loaded, |c.resident|) && s.accounting.residentBytes == SumAt(c.resident, s.loaded)
  }

  /** The uploading thread stops receiving exactly when every record is loaded. */
  ghost predicate Phased(c: Config, s: State) {
    && (s.main.Receiving? ==> |s.loaded| < |c.bytes|)
    && (s.main.Uploading? ==> |s.loaded| < |c.bytes|)
    && (s.main.Succeeded? ==> |s.loaded| == |c.bytes|)
  }

  ghost predicate Accounted(c: Config, s: State) {
    Counted(s) && Sized(c, s) && Phased(c, s)
  }

  ghost predicate Invariant(c: Config, s: State)
    requires ValidConfig(c)
  {
    InRange(c, s) && Separate(s) && NothingLost(c, s) && Accounted(c, s)
  }

  lemma InitialInvariant(c: Config)
    requires ValidConfig(c)
    ensures Invariant(c, Initial(c))
  {
  }

  lemma StepSeparate(c: Config, s: State, e: Event)
    requires ValidConfig(c) && Invariant(c, s) && Enabled(s, e)
    ensures InRange(c, Apply(c, s, e)) && Separate(Apply(c, s, e))
  {
    StepInRange(c, s, e);
    if e.Fetch? {
      FetchSeparate(c, s, e.w);
    } else {
      OtherSeparate(c, s, e);
    }
  }

  lemma StepInRange(c: Config, s: State, e: Event)
    requires ValidConfig(c) && InRange(c, s) && Enabled(s, e)
    ensures InRange(c, Apply(c, s, e))
  {
  }

  lemma FetchSeparate(c: Config, s: State, w: nat)
    requires ValidConfig(c) && InRange(c, s) && Separate(s) && Enabled(s, Fetch(w))
    ensures Separate(Apply(c, s, Fetch(w)))
  {
  }

  lemma OtherSeparate(c: Config, s: State, e: Event)
    requires ValidConfig(c) && InRange(c, s) && Separate(s) && Enabled(s, e) && !e.Fetch?
    ensures Separate(Apply(c, s, e))
  {
  }

  /** When every record is in the transaction no reader holds one. */
  lemma NoneHeldAfterSuccess(c: Config, s: State)
    requires ValidConfig(c) && Invariant(c, s) && s.main.Succeeded?
    ensures forall w :: 0 <= w < |s.workers| ==> !s.workers[w].Reading? && !s.workers[w].Sending?
  {
    forall w | 0 <= w < |s.workers| ensures !s.workers[w].Reading? && !s.workers[w].Sending? {
      if s.workers[w].Reading? || s.workers[w].Sending? {
        AllPresent(s.loaded, |c.bytes|, s.workers[w].index);
      }
    }
  }

  lemma StepNothingLost(c: Config, s: State, e: Event)
    requires ValidConfig(c) && Invariant(c, s) && Enabled(s, e)
    ensures NothingLost(c, Apply(c, s, e))
  {
    var t := Apply(c, s, e);
    if s.main.Succeeded? {
      NoneHeldAfterSuccess(c, s);
    }
    if Running(t) {
      forall i: nat | i < t.next && i < |c.bytes| ensures Somewhere(t, i) {
        if i < s.next {
          StillSomewhere(c, s, e, i);
        } else {
          assert Holds(t.workers[e.w], i);
        }
      }
    }
  }

  lemma StillSomewhere(c: Config, s: State, e: Event, i: nat)
    requires ValidConfig(c) && Invariant(c, s) && Enabled(s, e) && Running(Apply(c, s, e))
    requires i < |c.bytes| && i < s.next
    ensures Somewhere(Apply(c, s, e), i)
  {
    var t := Apply(c, s, e);
    if s.main.Succeeded? {
      NoneHeldAfterSuccess(c, s);
    }
    assert Somewhere(s, i);
    if w :| 0 <= w < |s.workers| && Holds(s.workers[w], i) {
      if e.Receive? && e.w == w {
        assert t.main == Uploading(i);
      } else {
        assert Holds(t.workers[w], i);
      }
    }
  }

  lemma StepAccounted(c: Config, s: State, e: Event)
    requires ValidConfig(c) && Invariant(c, s) && Enabled(s, e)
    ensures Accounted(c, Apply(c, s, e))
  {
    StepCounted(c, s, e);
    StepPhased(c, s, e);
    StepSized(c, s, e);
  }

  lemma StepCounted(c: Config, s: State, e: Event)
    requires ValidConfig(c) && Counted(s) && Enabled(s, e)
    ensures Counted(Apply(c, s, e))
  {
  }

  lemma StepPhased(c: Config, s: State, e: Event)
    requires ValidConfig(c) && Phased(c, s) && Enabled(s, e)
    ensures Phased(c, Apply(c, s, e))
  {
  }

  lemma StepSized(c: Config, s: State, e: Event)
    requires ValidConfig(c) && InRange(c, s) && Sized(c, s) && Enabled(s, e)
    ensures Sized(c, Apply(c, s, e))
  {
    if e.UploadDone? && e.ok {
      SizedAppend(c, s.loaded, s.main.index);
    }
  }

  lemma SizedAppend(c: Config, loaded: seq<nat>, index: nat)
    requires Below(loaded, |c.resident|) && index < |c.resident|
    ensures Below(loaded + [index], |c.resident|)
    ensures SumAt(c.resident, loaded + [index]) == SumAt(c.resident, loaded) + c.resident[index]
  {
    assert (loaded + [index])[..|loaded|] == loaded;
  }

  /** Every reachable state satisfies the invariant. */
  lemma {:induction false} AlwaysInvariant(c: Config, events: seq<Event>)
    requires ValidConfig(c) && Run(c, events).At?
    ensures Invariant(c, Run(c, events).state)
  {
    if events == [] {
      InitialInvariant(c);
    } else {
      var init, last := events[..|events| - 1], events[|events| - 1];
      AlwaysInvariant(c, init);
      var s := Run(c, init).state;
      StepSeparate(c, s, last);
      StepNothingLost(c, s, last);
      StepAccounted(c, s, last);
    }
  }

  // ----- termination and progress -----

  function WorkerWeight(worker: Worker): nat {
    match worker
    case Idle => 1
    case Reading(_) => 4
    case Sending(_, _) => 3
    case Stopped => 0
  }

  function WorkersWeight(workers: seq<Worker>): nat {
    if workers == [] then 0 else WorkersWeight(workers[..|workers| - 1]) + WorkerWeight(workers[|workers| - 1])
  }

  /** How many events can still happen at most. */
  function Budget(c: Config, s: State): nat {
    4 * (if s.next < |c.bytes| then |c.bytes| - s.next else 0)
    + WorkersWeight(s.workers)
    + (match s.main case Receiving => 1 case Uploading(_) => 2 case Failed => 0 case Succeeded => 0)
  }

  lemma {:induction false} WeightUpdate(workers: seq<Worker>, w: nat, worker: Worker)
    requires w < |workers|
    ensures WorkersWeight(workers[w := worker])
      == WorkersWeight(workers) - WorkerWeight(workers[w]) + WorkerWeight(worker)
  {
    var last := |workers| - 1;
    if w == last {
      assert workers[w := worker][..last] == workers[..last];
    } else {
      WeightUpdate(workers[..last], w, worker);
      assert workers[w := worker][..last] == workers[..last][w := worker];
    }
  }

  /** Every event uses up part of the budget. */
  lemma StepSpendsBudget(c: Config, s: State, e: Event)
    requires ValidConfig(c) && Enabled(s, e)
    ensures Budget(c, Apply(c, s, e)) < Budget(c, s)
  {
    match e
    case Fetch(w) => WeightUpdate(s.workers, w, if s.next < |c.bytes| then Reading(s.next) else Stopped);
    case ReadDone(w, ok) => WeightUpdate(s.workers, w, Sending(s.workers[w].index, ok));
    case Receive(w) => WeightUpdate(s.workers, w, Idle);
    case SendFails(w) => WeightUpdate(s.workers, w, Stopped);
    case UploadDone(_) =>
    case Disconnected =>
  }

  lemma {:induction false} IdleWeight(count: nat)
    ensures WorkersWeight(seq(count, _ => Idle)) == count
  {
    if count > 0 {
      IdleWeight(count - 1);
      assert seq(count, _ => Idle)[..count - 1] == seq(count - 1, _ => Idle);
    }
  }

  /** Every run is finite: four events a record, one a reader, one for the uploading thread. */
  lemma {:induction false} RunsAreBounded(c: Config, events: seq<Event>)
    requires ValidConfig(c) && Run(c, events).At?
    ensures |events| + Budget(c, Run(c, events).state) <= 4 * |c.bytes| + c.workers + 1
  {
    if events == [] {
      IdleWeight(c.workers);
    } else {
      RunsAreBounded(c, events[..|events| - 1]);
      StepSpendsBudget(c, Run(c, events[..|events| - 1]).state, events[|events| - 1]);
    }
  }

  /** While records are outstanding some reader is still at work. */
  lemma ReaderRemains(c: Config, s: State)
    requires ValidConfig(c) && Invariant(c, s) && s.main.Receiving?
    ensures exists w :: 0 <= w < |s.workers| && !s.workers[w].Stopped?
  {
    Missing(s.loaded, |c.bytes|);
    var i: nat :| i < |c.bytes| && i !in s.loaded;
    if i < s.next {
      assert Somewhere(s, i);
      var w :| 0 <= w < |s.workers| && Holds(s.workers[w], i);
    } else {
      assert !s.workers[0].Stopped?;
    }
  }

  /** A receive never finds every sender gone while records are outstanding. */
  lemma NeverDisconnected(c: Config, s: State)
    requires ValidConfig(c) && Invariant(c, s)
    ensures !Enabled(s, Disconnected)
  {
    if s.main.Receiving? {
      ReaderRemains(c, s);
    }
  }

  /** Fewer distinct indices than records leave some record out. */
  lemma {:induction false} Missing(indices: seq<nat>, n: nat)
    requires Below(indices, n) && |indices| < n
    ensures exists i: nat :: i < n && i !in indices
  {
    if forall i: nat :: i < n ==> i in indices {
      Covering(indices, n);
    }
  }

  lemma {:induction false} Covering(indices: seq<nat>, n: nat)
    requires forall i: nat :: i < n ==> i in indices
    ensures |indices| >= n
  {
    if n > 0 {
      var last: nat := n - 1;
      assert last in indices;
      var k :| 0 <= k < |indices| && indices[k] == last;
      forall i: nat | i < n - 1 ensures i in Without(indices, k) {
        assert i in indices;
        var j :| 0 <= j < |indices| && indices[j] == i;
        assert Without(indices, k)[if j < k then j else j - 1] == i;
      }
      Covering(Without(indices, k), n - 1);
    }
  }

  /** No deadlock: an unfinished state has an enabled event other than a lost channel, whatever failed before. */
  lemma Progress(c: Config, s: State)
    requires ValidConfig(c) && Invariant(c, s) && !Finished(s)
    ensures exists e :: Enabled(s, e) && e != Disconnected
  {
    NeverDisconnected(c, s);
    if s.main.Uploading? {
      assert Enabled(s, UploadDone(true));
    } else {
      var w :| 0 <= w < |s.workers| && !s.workers[w].Stopped?;
      match s.workers[w]
      case Idle => assert Enabled(s, Fetch(w));
      case Reading(_) => assert Enabled(s, ReadDone(w, true));
      case Sending(_, _) =>
        if s.main.Receiving? {
          assert Enabled(s, Receive(w));
        } else {
          assert Enabled(s, SendFails(w));
        }
      case Stopped =>
    }
  }

  // ----- failures -----

  /** A read or an upload that did not succeed. */
  predicate Fails(e: Event) {
    e == UploadDone(false) || (e.ReadDone? && !e.ok)
  }

  /** The uploading thread has failed, or a reader is still to hand over a failed read. */
  ghost predicate FailurePending(s: State) {
    s.main.Failed? || exists w :: 0 <= w < |s.workers| && s.workers[w].Sending? && !s.workers[w].ok
  }

  lemma FailureStarts(c: Config, s: State, e: Event)
    requires ValidConfig(c) && Enabled(s, e) && Fails(e)
    ensures FailurePending(Apply(c, s, e))
  {
    if e.ReadDone? {
      var t := Apply(c, s, e);
      assert t.workers[e.w].Sending? && !t.workers[e.w].ok;
    }
  }

  /** A failure does not go away. */
  lemma FailureStays(c: Config, s: State, e: Event)
    requires ValidConfig(c) && Invariant(c, s) && Enabled(s, e) && FailurePending(s)
    ensures FailurePending(Apply(c, s, e))
  {
    var t := Apply(c, s, e);
    if s.main.Succeeded? {
      NoneHeldAfterSuccess(c, s);
    }
    if !s.main.Failed? {
      var w :| 0 <= w < |s.workers| && s.workers[w].Sending? && !s.workers[w].ok;
      assert t.main.Failed? || (t.workers[w].Sending? && !t.workers[w].ok);
    }
  }

  /** After a failed read or upload the load has failed or is going to, and never succeeds. */
  lemma {:induction false} FailureIsReported(c: Config, events: seq<Event>, i: nat)
    requires ValidConfig(c) && Run(c, events).At? && i < |events| && Fails(events[i])
    ensures FailurePending(Run(c, events).state) && !Run(c, events).state.main.Succeeded?
  {
    var init, last := events[..|events| - 1], events[|events| - 1];
    var s := Run(c, init).state;
    AlwaysInvariant(c, init);
    AlwaysInvariant(c, events);
    if i == |events| - 1 {
      FailureStarts(c, s, last);
    } else {
      FailureIsReported(c, init, i);
      FailureStays(c, s, last);
    }
    if Run(c, events).state.main.Succeeded? {
      NoneHeldAfterSuccess(c, Run(c, events).state);
    }
  }

  /** Without a failed read or upload nothing fails. */
  lemma {:induction false} NoFailureInvented(c: Config, events: seq<Event>)
    requires ValidConfig(c) && Run(c, events).At? && forall i :: 0 <= i < |events| ==> !Fails(events[i])
    ensures !FailurePending(Run(c, events).state)
  {
    if events != [] {
      var init, last := events[..|events| - 1], events[|events| - 1];
      NoFailureInvented(c, init);
      AlwaysInvariant(c, init);
      NeverDisconnected(c, Run(c, init).state);
      NoFailureStarts(c, Run(c, init).state, last);
    }
  }

  lemma NoFailureStarts(c: Config, s: State, e: Event)
    requires ValidConfig(c) && Enabled(s, e) && !Fails(e) && e != Disconnected && !FailurePending(s)
    ensures !FailurePending(Apply(c, s, e))
  {
    var t := Apply(c, s, e);
    forall w | 0 <= w < |t.workers| && t.workers[w].Sending? ensures t.workers[w].ok {
      assert s.workers[w].Sending? ==> s.workers[w].ok;
    }
  }

  /** A finished load has succeeded exactly if no read and no upload failed. */
  lemma OutcomeIsExact(c: Config, events: seq<Event>)
    requires ValidConfig(c) && Run(c, events).At? && Finished(Run(c, events).state)
    ensures Run(c, events).state.main.Succeeded? <==> forall i :: 0 <= i < |events| ==> !Fails(events[i])
  {
    if i :| 0 <= i < |events| && Fails(events[i]) {
      FailureIsReported(c, events, i);
    } else {
      NoFailureInvented(c, events);
    }
  }

  // ----- what a successful run has done -----

  /** How many uploads of the run succeeded. */
  function Uploads(events: seq<Event>): nat {
    if events == [] then 0
    else Uploads(events[..|events| - 1]) + if events[|events| - 1] == UploadDone(true) then 1 else 0
  }

  lemma {:induction false} UploadsAreCounted(c: Config, events: seq<Event>)
    requires ValidConfig(c) && Run(c, events).At?
    ensures |Run(c, events).state.loaded| == Uploads(events)
  {
    if events != [] {
      UploadsAreCounted(c, events[..|events| - 1]);
    }
  }

  /** A successful load has read, uploaded and inserted every record exactly once, and nothing failed. */
  lemma SuccessIsExact(c: Config, events: seq<Event>)
    requires ValidConfig(c) && Run(c, events).At? && Run(c, events).state.main.Succeeded?
    ensures var s := Run(c, events).state;
            && |s.loaded| == |c.bytes| && Distinct(s.loaded) && (forall i: nat :: i < |c.bytes| <==> i in s.loaded)
            && s.accounting == Accounting(|c.bytes|, |c.bytes|, |c.bytes|, Total(c.resident))
    ensures Uploads(events) == |c.bytes| && forall i :: 0 <= i < |events| ==> !Fails(events[i])
  {
    AlwaysInvariant(c, events);
    UploadsAreCounted(c, events);
    forall i | 0 <= i < |events| ensures !Fails(events[i]) {
      if Fails(events[i]) {
        FailureIsReported(c, events, i);
      }
    }
    var s := Run(c, events).state;
    forall i: nat | i < |c.bytes| ensures i in s.loaded {
      AllPresent(s.loaded, |c.bytes|, i);
    }
    SumOfAll(c.resident, s.loaded);
  }

  // ----- host memory -----

  /** The records readers hold, in reader order; a failed read holds no slice. */
  function Held(workers: seq<Worker>): seq<nat> {
    if workers == [] then []
    else
      var last := workers[|workers| - 1];
      Held(workers[..|workers| - 1]) +
      (if last.Reading? || (last.Sending? && last.ok) then [last.index] else [])
  }

  /** Held slices plus the one the uploading thread still owns. */
  function Live(s: State): seq<nat> {
    Held(s.workers) + (if s.main.Uploading? then [s.main.index] else [])
  }

  lemma {:induction false} HeldMembers(workers: seq<Worker>)
    ensures |Held(workers)| <= |workers|
    ensures forall i :: i in Held(workers) ==> exists w :: 0 <= w < |workers| && Holds(workers[w], i)
    ensures |Held(workers)| == |workers| ==>
      forall w :: 0 <= w < |workers| ==> workers[w].Reading? || workers[w].Sending?
  {
    if workers != [] {
      var init := workers[..|workers| - 1];
      HeldMembers(init);
      forall i | i in Held(workers) ensures exists w :: 0 <= w < |workers| && Holds(workers[w], i) {
        if i in Held(init) {
          var w :| 0 <= w < |init| && Holds(init[w], i);
          assert Holds(workers[w], i);
        } else {
          assert Holds(workers[|workers| - 1], i);
        }
      }
    }
  }

  lemma {:induction false} HeldDistinct(workers: seq<Worker>)
    requires forall v, w :: 0 <= v < w < |workers| && (workers[v].Reading? || workers[v].Sending?) ==>
      !Holds(workers[w], workers[v].index)
    ensures Distinct(Held(workers))
  {
    if workers != [] {
      var init, last := workers[..|workers| - 1], workers[|workers| - 1];
      HeldDistinct(init);
      HeldMembers(init);
      forall k | 0 <= k < |Held(init)| ensures !Holds(last, Held(init)[k]) {
        var i := Held(init)[k];
        assert i in Held(init);
        var w :| 0 <= w < |init| && Holds(init[w], i);
        assert !Holds(workers[|workers| - 1], workers[w].index);
      }
    }
  }

  lemma LiveDistinct(c: Config, s: State)
    requires ValidConfig(c) && Invariant(c, s)
    ensures Distinct(Held(s.workers)) && Distinct(Live(s))
    ensures Below(Held(s.workers), |c.bytes|) && Below(Live(s), |c.bytes|)
    ensures |Held(s.workers)| <= c.workers && |Live(s)| <= c.workers + 1
    ensures Below(Live(s), s.next)
  {
    HeldDistinct(s.workers);
    HeldMembers(s.workers);
    forall k | 0 <= k < |Held(s.workers)|
      ensures Held(s.workers)[k] < |c.bytes| && Held(s.workers)[k] < s.next
      ensures s.main.Uploading? ==> Held(s.workers)[k] != s.main.index
    {
      var i := Held(s.workers)[k];
      assert i in Held(s.workers);
      var w :| 0 <= w < |s.workers| && Holds(s.workers[w], i);
    }
  }

  /** Readers alone never hold more than the staging estimate; with the uploading thread, one record more. */
  lemma MemoryBound(c: Config, events: seq<Event>)
    requires ValidConfig(c) && Run(c, events).At?
    ensures var s := Run(c, events).state;
            && Below(Held(s.workers), |c.bytes|) && Below(Live(s), |c.bytes|)
            && SumAt(c.bytes, Held(s.workers)) <= PeakStaging(c.bytes, c.workers)
            && SumAt(c.bytes, Live(s)) <= PeakStaging(c.bytes, c.workers + 1)
            && |Live(s)| <= c.workers + 1
  {
    AlwaysInvariant(c, events);
    var s := Run(c, events).state;
    LiveDistinct(c, s);
    SumAtMostBest(c.bytes, Held(s.workers), c.workers);
    SumAtMostBest(c.bytes, Live(s), c.workers + 1);
    PeakIsBest(c.bytes, c.workers);
    PeakIsBest(c.bytes, c.workers + 1);
  }
}
