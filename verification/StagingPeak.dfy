/**
  How much host memory a load can really hold at once: which sets of records can be live
  together, and exactly when the authored staging estimate covers all of them.
*/
module StagingPeak {
  import opened Loader
  import opened Staging

  // ----- which records can be live together -----

  predicate AllBusy(s: State) {
    forall w :: 0 <= w < |s.workers| ==> s.workers[w].Reading? || s.workers[w].Sending?
  }

  predicate AtMostOneIdle(s: State) {
    && (forall w :: 0 <= w < |s.workers| ==> !s.workers[w].Stopped?)
    && (forall v, w :: 0 <= v < w < |s.workers| ==> !(s.workers[v].Idle? && s.workers[w].Idle?))
  }

  ghost predicate HeldByReader(s: State, i: int) {
    exists w :: 0 <= w < |s.workers| && i >= 0 && Holds(s.workers[w], i)
  }

  ghost predicate LiveIndex(s: State, i: int) {
    HeldByReader(s, i) || (i >= 0 && s.main == Uploading(i))
  }

  /**
    The two most recently fetched records: a fully busy loader holds the latest in a reader,
    and while the uploading thread also owns a slice the one before it is live as well.
  */
  ghost predicate RecentLive(s: State) {
    && (s.main.Uploading? && AllBusy(s) ==> HeldByReader(s, s.next - 1) && LiveIndex(s, s.next - 2))
    && (s.main.Uploading? && AtMostOneIdle(s) ==> LiveIndex(s, s.next - 1))
    && (s.main.Receiving? && AllBusy(s) ==> HeldByReader(s, s.next - 1))
  }

  lemma KeepsHolding(c: Config, s: State, e: Event, i: int)
    requires ValidConfig(c) && Enabled(s, e) && Running(Apply(c, s, e)) && s.main != Succeeded && HeldByReader(s, i)
    ensures HeldByReader(Apply(c, s, e), i) || Apply(c, s, e).main == Uploading(i)
    ensures !e.Receive? ==> HeldByReader(Apply(c, s, e), i)
  {
    var w :| 0 <= w < |s.workers| && i >= 0 && Holds(s.workers[w], i);
    var t := Apply(c, s, e);
    if e.Receive? && e.w == w {
      assert t.main == Uploading(i);
    } else {
      assert Holds(t.workers[w], i);
    }
  }

  lemma FetchRecent(c: Config, s: State, w: nat)
    requires ValidConfig(c) && Invariant(c, s) && RecentLive(s) && Enabled(s, Fetch(w)) && Running(s)
    ensures RecentLive(Apply(c, s, Fetch(w)))
  {
    var t := Apply(c, s, Fetch(w));
    if !t.workers[w].Stopped? {
      assert Holds(t.workers[w], s.next);
      if s.main.Uploading? && AllBusy(t) {
        forall v | 0 <= v < |s.workers| && v != w ensures !s.workers[v].Idle? && !s.workers[v].Stopped? {
          assert t.workers[v] == s.workers[v];
        }
        if HeldByReader(s, s.next - 1) {
          KeepsHolding(c, s, Fetch(w), s.next - 1);
        }
      }
    } else {
      assert !AllBusy(t) && !AtMostOneIdle(t);
    }
  }

  lemma ReceiveRecent(c: Config, s: State, w: nat)
    requires ValidConfig(c) && Invariant(c, s) && RecentLive(s) && Enabled(s, Receive(w))
    ensures RecentLive(Apply(c, s, Receive(w)))
  {
    var t := Apply(c, s, Receive(w));
    assert t.workers[w].Idle?;
    if t.main.Uploading? && AtMostOneIdle(t) {
      forall v | 0 <= v < |s.workers| ensures s.workers[v].Reading? || s.workers[v].Sending? {
        if v != w {
          assert t.workers[v] == s.workers[v];
        }
      }
      KeepsHolding(c, s, Receive(w), s.next - 1);
    }
  }

  lemma SameKinds(c: Config, s: State, e: Event)
    requires ValidConfig(c) && InRange(c, s) && Enabled(s, e) && (e.ReadDone? || e.UploadDone?)
    ensures var t := Apply(c, s, e);
      |t.workers| == |s.workers| && forall w :: 0 <= w < |s.workers| ==>
        (t.workers[w].Idle? <==> s.workers[w].Idle?) && (t.workers[w].Stopped? <==> s.workers[w].Stopped?)
  {
  }

  lemma OtherRecent(c: Config, s: State, e: Event)
    requires ValidConfig(c) && Invariant(c, s) && RecentLive(s) && Enabled(s, e) && (e.ReadDone? || e.UploadDone?)
    ensures RecentLive(Apply(c, s, e))
  {
    var t := Apply(c, s, e);
    if Running(t) && !s.main.Succeeded? {
      SameKinds(c, s, e);
      if HeldByReader(s, s.next - 1) {
        KeepsHolding(c, s, e, s.next - 1);
      }
      if HeldByReader(s, s.next - 2) {
        KeepsHolding(c, s, e, s.next - 2);
      }
    }
  }

  lemma {:induction false} AlwaysRecentLive(c: Config, events: seq<Event>)
    requires ValidConfig(c) && Run(c, events).At?
    ensures RecentLive(Run(c, events).state)
  {
    if events == [] {
      assert Initial(c).workers[0].Idle?;
    } else {
      var init, e := events[..|events| - 1], events[|events| - 1];
      AlwaysInvariant(c, init);
      AlwaysRecentLive(c, init);
      var s := Run(c, init).state;
      match e
      case Fetch(w) =>
        if Running(s) {
          FetchRecent(c, s, w);
        }
      case Receive(w) => ReceiveRecent(c, s, w);
      case ReadDone(_, _) => OtherRecent(c, s, e);
      case UploadDone(_) => OtherRecent(c, s, e);
      case SendFails(_) =>
      case Disconnected =>
    }
  }

  // ----- the exact condition -----

  /** The choice that ends in two adjacent records: the latest two plus the best earlier ones. */
  function TailChoice(bytes: seq<nat>, workers: nat, j: nat): nat
    requires 1 <= j < |bytes| && workers > 0
  {
    Best(bytes[..j - 1], workers - 1) + bytes[j - 1] + bytes[j]
  }

  /** A caller can check this on the record sizes before loading. */
  predicate EstimateCovers(bytes: seq<nat>, workers: nat)
    requires workers > 0
  {
    forall j :: 1 <= j < |bytes| ==> TailChoice(bytes, workers, j) <= PeakStaging(bytes, workers)
  }

  lemma HeldAllBusy(workers: seq<Worker>)
    requires |Held(workers)| == |workers|
    ensures forall w :: 0 <= w < |workers| ==> workers[w].Reading? || workers[w].Sending?
    ensures forall w :: 0 <= w < |workers| ==> workers[w].index in Held(workers)
  {
    HeldMembers(workers);
    HeldContains(workers);
  }

  lemma {:induction false} HeldContains(workers: seq<Worker>)
    requires |Held(workers)| == |workers|
    ensures forall w :: 0 <= w < |workers| ==>
      (workers[w].Reading? || workers[w].Sending?) && workers[w].index in Held(workers)
  {
    if workers != [] {
      HeldMembers(workers[..|workers| - 1]);
      HeldContains(workers[..|workers| - 1]);
    }
  }

  lemma HolderIsHeld(workers: seq<Worker>, w: nat, i: nat)
    requires |Held(workers)| == |workers| && w < |workers| && Holds(workers[w], i)
    ensures i in Held(workers)
  {
    HeldContains(workers);
  }

  lemma FullIsBusy(c: Config, s: State)
    requires ValidConfig(c) && Invariant(c, s) && |Live(s)| == c.workers + 1
    ensures s.main.Uploading? && AllBusy(s) && |Held(s.workers)| == |s.workers|
  {
    HeldMembers(s.workers);
    HeldAllBusy(s.workers);
  }

  lemma ReaderIndexIsLive(s: State, i: int)
    requires |Held(s.workers)| == |s.workers| && HeldByReader(s, i)
    ensures i >= 0 && i in Live(s)
  {
    var w :| 0 <= w < |s.workers| && i >= 0 && Holds(s.workers[w], i);
    HolderIsHeld(s.workers, w, i);
  }

  /** With one record more than readers, the two latest fetches are among the live ones. */
  lemma FullLive(c: Config, s: State)
    requires ValidConfig(c) && Invariant(c, s) && RecentLive(s) && |Live(s)| == c.workers + 1
    ensures s.next >= 2 && s.next - 1 in Live(s) && s.next - 2 in Live(s)
  {
    FullIsBusy(c, s);
    ReaderIndexIsLive(s, s.next - 1);
    if HeldByReader(s, s.next - 2) {
      ReaderIndexIsLive(s, s.next - 2);
    }
  }

  /** Taking one index out of a distinct list. */
  lemma TakeOut(bytes: seq<nat>, indices: seq<nat>, x: nat) returns (rest: seq<nat>)
    requires Below(indices, |bytes|) && Distinct(indices) && x in indices
    ensures Below(rest, |bytes|) && Distinct(rest) && |rest| == |indices| - 1
    ensures SumAt(bytes, indices) == bytes[x] + SumAt(bytes, rest)
    ensures forall y :: y in rest <==> y in indices && y != x
  {
    var k :| 0 <= k < |indices| && indices[k] == x;
    SumWithout(bytes, indices, k);
    rest := Without(indices, k);
    WithoutMembers(indices, k);
  }

  lemma WithoutMembers(indices: seq<nat>, k: nat)
    requires Distinct(indices) && k < |indices|
    ensures Distinct(Without(indices, k))
    ensures forall y :: y in Without(indices, k) <==> y in indices && y != indices[k]
  {
    WithoutDistinct(indices, k);
    var rest := Without(indices, k);
    forall y | y in indices && y != indices[k] ensures y in rest {
      var i :| 0 <= i < |indices| && indices[i] == y;
      assert rest[if i < k then i else i - 1] == y;
    }
  }

  /** Distinct indices that contain the two top ones sum to at most that tail choice. */
  lemma TailSum(bytes: seq<nat>, indices: seq<nat>, workers: nat, j: nat)
    requires workers > 0 && 1 <= j < |bytes| && Below(indices, j + 1) && Distinct(indices)
    requires |indices| == workers + 1 && j in indices && j - 1 in indices
    ensures Below(indices, |bytes|) && SumAt(bytes, indices) <= TailChoice(bytes, workers, j)
  {
    var rest := TakeOut(bytes, indices, j);
    var others := TakeOut(bytes, rest, j - 1);
    BelowBoth(indices, others, j);
    PrefixSumAtMostBest(bytes, others, j - 1, workers - 1);
  }

  lemma BelowBoth(indices: seq<nat>, others: seq<nat>, j: nat)
    requires j > 0 && Below(indices, j + 1)
    requires forall y :: y in others ==> y in indices && y != j && y != j - 1
    ensures Below(others, j - 1)
  {
    forall i | 0 <= i < |others| ensures others[i] < j - 1 {
      assert others[i] in others;
    }
  }

  lemma PrefixSumAtMostBest(bytes: seq<nat>, indices: seq<nat>, n: nat, count: nat)
    requires n <= |bytes| && Below(indices, n) && Distinct(indices) && |indices| <= count
    ensures Below(indices, |bytes|) && SumAt(bytes, indices) <= Best(bytes[..n], count)
  {
    SumAtMostBest(bytes[..n], indices, count);
    SumOfPrefix(bytes, n, indices);
  }

  lemma EstimateHolds(c: Config, events: seq<Event>)
    requires ValidConfig(c) && Run(c, events).At? && EstimateCovers(c.bytes, c.workers)
    ensures
      var s := Run(c, events).state;
      Below(Live(s), |c.bytes|) && SumAt(c.bytes, Live(s)) <= PeakStaging(c.bytes, c.workers)
  {
    AlwaysInvariant(c, events);
    AlwaysRecentLive(c, events);
    LiveSum(c, Run(c, events).state);
  }

  lemma LiveSum(c: Config, s: State)
    requires ValidConfig(c) && Invariant(c, s) && RecentLive(s) && EstimateCovers(c.bytes, c.workers)
    ensures Below(Live(s), |c.bytes|) && SumAt(c.bytes, Live(s)) <= PeakStaging(c.bytes, c.workers)
  {
    LiveDistinct(c, s);
    if |Live(s)| == c.workers + 1 {
      FullLive(c, s);
    }
    CoveredSum(c.bytes, c.workers, Live(s), s.next);
  }

  /** Live records fit the estimate: up to the worker count by definition, one more by its cover of tail choices. */
  lemma CoveredSum(bytes: seq<nat>, workers: nat, live: seq<nat>, next: nat)
    requires workers > 0 && EstimateCovers(bytes, workers)
    requires Below(live, next) && Below(live, |bytes|) && Distinct(live) && |live| <= workers + 1
    requires |live| == workers + 1 ==> next >= 2 && next - 1 in live && next - 2 in live
    ensures SumAt(bytes, live) <= PeakStaging(bytes, workers)
  {
    if |live| <= workers {
      SumAtMostBest(bytes, live, workers);
      PeakIsBest(bytes, workers);
    } else {
      TailSum(bytes, live, workers, next - 1);
    }
  }

  // ----- reaching a chosen set -----

  lemma Extend(c: Config, events: seq<Event>, s: State, e: Event) returns (longer: seq<Event>)
    requires ValidConfig(c) && Run(c, events) == At(s) && Enabled(s, e)
    ensures Run(c, longer) == At(Apply(c, s, e))
  {
    longer := events + [e];
    assert longer[..|longer| - 1] == events;
  }

  ghost predicate Increasing(keep: seq<nat>) {
    forall i, j :: 0 <= i < j < |keep| ==> keep[i] < keep[j]
  }

  /** The first readers are blocked with the records of `keep`; everything else fetched so far is loaded. */
  ghost predicate Keeping(c: Config, s: State, next: nat, keep: seq<nat>) {
    && s.next == next && s.main.Receiving? && |s.workers| == c.workers && |keep| < c.workers
    && (forall w :: 0 <= w < |keep| ==> s.workers[w] == Sending(keep[w], true))
    && (forall w :: |keep| <= w < c.workers ==> s.workers[w] == Idle)
  }

  /** Read one more record and keep it in the next reader. */
  lemma KeepNext(
      c: Config, events: seq<Event>, s: State, next: nat, keep: seq<nat>) returns (longer: seq<Event>, t: State)
    requires ValidConfig(c) && Run(c, events) == At(s) && Keeping(c, s, next, keep)
    requires next < |c.bytes| && |keep| + 1 < c.workers
    ensures Run(c, longer) == At(t) && Keeping(c, t, next + 1, keep + [next])
  {
    var w := |keep|;
    longer := Extend(c, events, s, Fetch(w));
    t := Apply(c, s, Fetch(w));
    longer := Extend(c, longer, t, ReadDone(w, true));
    t := Apply(c, t, ReadDone(w, true));
  }

  /** Pass one more record through the last reader into the transaction. */
  lemma PassNext(
      c: Config, events: seq<Event>, s: State, next: nat, keep: seq<nat>) returns (longer: seq<Event>, t: State)
    requires ValidConfig(c) && Run(c, events) == At(s) && Keeping(c, s, next, keep)
    requires next + 1 < |c.bytes|
    ensures Run(c, longer) == At(t) && Keeping(c, t, next + 1, keep)
  {
    AlwaysInvariant(c, events);
    Few(s.loaded, next);
    var w := c.workers - 1;
    longer := Extend(c, events, s, Fetch(w));
    t := Apply(c, s, Fetch(w));
    longer := Extend(c, longer, t, ReadDone(w, true));
    t := Apply(c, t, ReadDone(w, true));
    longer := Extend(c, longer, t, Receive(w));
    t := Apply(c, t, Receive(w));
    longer := Extend(c, longer, t, UploadDone(true));
    t := Apply(c, t, UploadDone(true));
  }

  /** Any increasing choice of fewer records than readers can be kept while all others pass through. */
  lemma {:induction false} Reach(c: Config, next: nat, keep: seq<nat>) returns (events: seq<Event>, s: State)
    requires ValidConfig(c) && next < |c.bytes| && Increasing(keep) && Below(keep, next) && |keep| < c.workers
    ensures Run(c, events) == At(s) && Keeping(c, s, next, keep)
    decreases next
  {
    if next == 0 {
      NothingBelowZero(keep);
      events, s := [], Initial(c);
    } else if keep != [] && keep[|keep| - 1] == next - 1 {
      var init := keep[..|keep| - 1];
      events, s := Reach(c, next - 1, init);
      events, s := KeepNext(c, events, s, next - 1, init);
      assert init + [next - 1] == keep;
    } else {
      assert Below(keep, next - 1);
      events, s := Reach(c, next - 1, keep);
      events, s := PassNext(c, events, s, next - 1, keep);
    }
  }

  lemma {:induction false} HeldOfKeeping(workers: seq<Worker>, keep: seq<nat>)
    requires |keep| <= |workers|
    requires forall w :: 0 <= w < |keep| ==> workers[w] == Sending(keep[w], true)
    requires forall w :: |keep| <= w < |workers| ==> workers[w] == Idle
    ensures Held(workers) == keep
  {
    if workers == [] {
    } else if |keep| == |workers| {
      HeldOfKeeping(workers[..|workers| - 1], keep[..|keep| - 1]);
    } else {
      HeldOfKeeping(workers[..|workers| - 1], keep);
    }
  }

  /** From a kept choice the next two records become live on top of it. */
  lemma ReachTail(c: Config, keep: seq<nat>, j: nat) returns (events: seq<Event>, s: State)
    requires ValidConfig(c) && 1 <= j < |c.bytes| && Increasing(keep) && Below(keep, j - 1) && |keep| < c.workers
    ensures Run(c, events) == At(s) && Live(s) == keep + [j, j - 1]
  {
    var w := c.workers - 1;
    events, s := Reach(c, j - 1, keep);
    var before := s.workers;
    events, s := HandOver(c, events, s, w, j - 1);
    events := Extend(c, events, s, Fetch(w));
    s := Apply(c, s, Fetch(w));
    HeldOfKeeping(before[..w], keep);
    assert s.workers == before[..w] + [Reading(j)];
    HeldPush(before[..w], j);
  }

  lemma HeldPush(workers: seq<Worker>, j: nat)
    ensures Held(workers + [Reading(j)]) == Held(workers) + [j]
  {
    assert (workers + [Reading(j)])[..|workers|] == workers;
  }

  /** An idle worker fetches and reads a record and hands it to the uploader. */
  lemma HandOver(c: Config, events: seq<Event>, s: State, w: nat, next: nat)
    returns (longer: seq<Event>, t: State)
    requires ValidConfig(c) && Run(c, events) == At(s) && w < |s.workers| && s.workers[w] == Idle
    requires s.main == Receiving && s.next == next < |c.bytes|
    ensures Run(c, longer) == At(t) && t.main == Uploading(next) && t.next == next + 1
    ensures t.workers == s.workers
  {
    longer := Extend(c, events, s, Fetch(w));
    t := Apply(c, s, Fetch(w));
    longer := Extend(c, longer, t, ReadDone(w, true));
    t := Apply(c, t, ReadDone(w, true));
    longer := Extend(c, longer, t, Receive(w));
    t := Apply(c, t, Receive(w));
    assert t.workers == s.workers;
  }

  /** The best choice is attained by some increasing list. */
  lemma {:induction false} BestChoice(bytes: seq<nat>, count: nat) returns (keep: seq<nat>)
    ensures Increasing(keep) && Below(keep, |bytes|) && |keep| <= count && SumAt(bytes, keep) == Best(bytes, count)
  {
    if bytes == [] || count == 0 {
      keep := [];
    } else {
      var n := |bytes| - 1;
      if Best(bytes[..n], count) >= bytes[n] + Best(bytes[..n], count - 1) {
        keep := BestChoice(bytes[..n], count);
        SumOfPrefix(bytes, n, keep);
      } else {
        var init := BestChoice(bytes[..n], count - 1);
        SumOfPrefix(bytes, n, init);
        keep := init + [n];
        assert keep[..|keep| - 1] == init;
      }
    }
  }

  lemma ExceedsEstimate(c: Config, j: nat) returns (events: seq<Event>)
    requires ValidConfig(c) && 1 <= j < |c.bytes|
    ensures Run(c, events).At?
    ensures var s := Run(c, events).state;
            Below(Live(s), |c.bytes|) && SumAt(c.bytes, Live(s)) == TailChoice(c.bytes, c.workers, j)
  {
    var keep := BestChoice(c.bytes[..j - 1], c.workers - 1);
    SumOfPrefix(c.bytes, j - 1, keep);
    var s: State;
    events, s := ReachTail(c, keep, j);
    var live := Live(s);
    assert live[..|live| - 1] == keep + [j];
    assert (keep + [j])[..|keep|] == keep;
  }

  /** The staging estimate bounds every live slice of every run exactly when no adjacent tail exceeds it. */
  lemma EstimateExactly(c: Config)
    requires ValidConfig(c)
    ensures (forall events :: Run(c, events).At? ==>
               var s := Run(c, events).state;
               Below(Live(s), |c.bytes|) && SumAt(c.bytes, Live(s)) <= PeakStaging(c.bytes, c.workers))
            <==> EstimateCovers(c.bytes, c.workers)
  {
    if EstimateCovers(c.bytes, c.workers) {
      forall events | Run(c, events).At?
        ensures var s := Run(c, events).state;
                Below(Live(s), |c.bytes|) && SumAt(c.bytes, Live(s)) <= PeakStaging(c.bytes, c.workers)
      {
        EstimateHolds(c, events);
      }
    } else {
      var j :| 1 <= j < |c.bytes| && TailChoice(c.bytes, c.workers, j) > PeakStaging(c.bytes, c.workers);
      var events := ExceedsEstimate(c, j);
    }
  }

  /** The number of live slices stays within the worker count exactly when there are no more records than readers. */
  lemma LiveCountExactly(c: Config)
    requires ValidConfig(c)
    ensures (forall events :: Run(c, events).At? ==> |Live(Run(c, events).state)| <= c.workers) <==>
      |c.bytes| <= c.workers
  {
    if |c.bytes| <= c.workers {
      forall events | Run(c, events).At? ensures |Live(Run(c, events).state)| <= c.workers {
        AlwaysInvariant(c, events);
        LiveDistinct(c, Run(c, events).state);
        Few(Live(Run(c, events).state), |c.bytes|);
      }
    } else {
      var keep := seq(c.workers - 1, i requires i >= 0 => i as nat);
      var events, s := ReachTail(c, keep, c.workers);
    }
  }
}
