/** The latest-value store as a fold over everything ever submitted to it. */
module StoreSpec {
  import opened Types
  import opened VehicleData

  datatype UpsertResult = Inserted | Updated | IgnoredOlder | Full

  // The first slot of a signal, or the number of slots.
  function Find(slots: seq<Sample>, id: seq<Byte>): (index: nat)
    ensures index <= |slots|
    ensures index < |slots| ==> slots[index].signalId == id
    ensures forall k :: 0 <= k < index ==> slots[k].signalId != id
  {
    if slots == [] then 0
    else if slots[0].signalId == id then 0
    else 1 + Find(slots[1..], id)
  }

  function Upsert(capacity: nat, slots: seq<Sample>, incoming: Sample): (seq<Sample>, UpsertResult) {
    var index := Find(slots, incoming.signalId);
    if index < |slots| then
      if incoming.timestampMs < slots[index].timestampMs then (slots, IgnoredOlder)
      else (slots[index := incoming], Updated)
    else if |slots| == capacity then (slots, Full)
    else (slots + [incoming], Inserted)
  }

  function Stored(capacity: nat, history: seq<Sample>): seq<Sample> {
    if history == [] then []
    else
      var n := |history| - 1;
      Upsert(capacity, Stored(capacity, history[..n]), history[n]).0
  }

  // ---- What the slots should be, without running the store ----

  // The signals in order of first appearance.
  function Appearances(history: seq<Sample>): seq<seq<Byte>> {
    if history == [] then []
    else
      var n := |history| - 1;
      var before := Appearances(history[..n]);
      if history[n].signalId in before then before else before + [history[n].signalId]
  }

  // Submission i has the greatest timestamp of its signal, and is the last submission that has.
  ghost predicate LastOfGreatest(history: seq<Sample>, i: int) {
    && 0 <= i < |history|
    && forall j :: 0 <= j < |history| && history[j].signalId == history[i].signalId ==>
         history[j].timestampMs <= history[i].timestampMs
         && (j > i ==> history[j].timestampMs < history[i].timestampMs)
  }

  ghost predicate IsCurrent(history: seq<Sample>, s: Sample) {
    exists i :: LastOfGreatest(history, i) && history[i] == s
  }

  lemma CurrentIsUnique(history: seq<Sample>, s: Sample, t: Sample)
    requires IsCurrent(history, s) && IsCurrent(history, t) && s.signalId == t.signalId
    ensures s == t
  {
    var i :| LastOfGreatest(history, i) && history[i] == s;
    var j :| LastOfGreatest(history, j) && history[j] == t;
    assert i == j;
  }

  /** Appearances lists exactly the submitted signals, each once, in the order of their first submissions. */
  lemma {:induction false} AppearancesAreExact(history: seq<Sample>)
    ensures forall id :: id in Appearances(history) <==> Find(history, id) < |history|
    ensures forall k, l :: 0 <= k < l < |Appearances(history)| ==>
      Find(history, Appearances(history)[k]) < Find(history, Appearances(history)[l])
  {
    if history != [] {
      var n := |history| - 1;
      var front := history[..n];
      AppearancesAreExact(front);
      forall id ensures Find(history, id) == if Find(front, id) < n then Find(front, id)
                                             else if history[n].signalId == id then n else n + 1
      {
        FindInPrefix(history, id);
      }
      assert forall k :: 0 <= k < |Appearances(front)| ==> Appearances(front)[k] in Appearances(front);
    }
  }

  lemma FindInPrefix(history: seq<Sample>, id: seq<Byte>)
    requires history != []
    ensures var n := |history| - 1;
      Find(history, id) == if Find(history[..n], id) < n then Find(history[..n], id)
                           else if history[n].signalId == id then n else n + 1
  {
    var n := |history| - 1;
    var i, k := Find(history, id), Find(history[..n], id);
    if i < n {
      assert history[..n][i].signalId == id;
    }
    if k < n {
      assert history[k].signalId == id;
    }
  }

  // ---- The slots are exactly that ----

  // One slot per signal among the first `capacity` ones, holding its current sample.
  ghost predicate Exact(capacity: nat, history: seq<Sample>, slots: seq<Sample>) {
    var ids := Appearances(history);
    && |slots| == Min(|ids|, capacity)
    && forall k :: 0 <= k < |slots| ==> slots[k].signalId == ids[k] && IsCurrent(history, slots[k])
  }

  lemma OthersStayCurrent(history: seq<Sample>, s: Sample)
    requires history != [] && IsCurrent(history[..|history| - 1], s)
    requires var last := history[|history| - 1];
      last.signalId == s.signalId ==> last.timestampMs < s.timestampMs
    ensures IsCurrent(history, s)
  {
    var front := history[..|history| - 1];
    var i :| LastOfGreatest(front, i) && front[i] == s;
    StaysLast(history, i);
  }

  lemma StaysLast(history: seq<Sample>, i: int)
    requires history != [] && LastOfGreatest(history[..|history| - 1], i)
    requires var last := history[|history| - 1];
      last.signalId == history[i].signalId ==> last.timestampMs < history[i].timestampMs
    ensures LastOfGreatest(history, i)
  {
    var front := history[..|history| - 1];
    assert forall j :: 0 <= j < |front| ==> front[j] == history[j];
  }

  lemma NewestBecomesCurrent(history: seq<Sample>, s: Sample)
    requires history != [] && IsCurrent(history[..|history| - 1], s)
    requires var last := history[|history| - 1];
      last.signalId == s.signalId && last.timestampMs >= s.timestampMs
    ensures IsCurrent(history, history[|history| - 1])
  {
    var n := |history| - 1;
    var front := history[..n];
    var i :| LastOfGreatest(front, i) && front[i] == s;
    forall j | 0 <= j < |history| && history[j].signalId == s.signalId
      ensures history[j].timestampMs <= history[n].timestampMs
    {
      if j < n {
        assert front[j].signalId == s.signalId;
      }
    }
    assert LastOfGreatest(history, n);
  }

  lemma FirstIsCurrent(history: seq<Sample>)
    requires history != []
    requires var n := |history| - 1; Find(history[..n], history[n].signalId) == n
    ensures IsCurrent(history, history[|history| - 1])
  {
    var n := |history| - 1;
    forall j | 0 <= j < n ensures history[j].signalId != history[n].signalId {
      assert history[..n][j].signalId != history[n].signalId;
    }
    assert LastOfGreatest(history, n);
  }

  // The slots are the first signals, in order.
  lemma {:induction false} SlotsAreTheFirst(capacity: nat, history: seq<Sample>)
    ensures var slots, ids := Stored(capacity, history), Appearances(history);
      |slots| == Min(|ids|, capacity) && forall k :: 0 <= k < |slots| ==> slots[k].signalId == ids[k]
  {
    if history != [] {
      var front := history[..|history| - 1];
      var slots, ids, id := Stored(capacity, front), Appearances(front), history[|history| - 1].signalId;
      SlotsAreTheFirst(capacity, front);
      if Find(slots, id) < |slots| {
        assert ids[Find(slots, id)] == id && id in ids;
      }
    }
  }

  // Each slot holds the current sample of its signal.
  lemma {:induction false} SlotsAreCurrent(capacity: nat, history: seq<Sample>)
    ensures forall k :: 0 <= k < |Stored(capacity, history)| ==> IsCurrent(history, Stored(capacity, history)[k])
  {
    if history != [] {
      var front, id := history[..|history| - 1], history[|history| - 1].signalId;
      var slots := Stored(capacity, front);
      SlotsAreCurrent(capacity, front);
      SlotsAreTheFirst(capacity, front);
      OnlySlot(capacity, front, id);
      if |slots| < capacity && Find(slots, id) == |slots| {
        NotYetSeen(capacity, front, id);
      }
      UpsertKeepsCurrent(capacity, history, slots);
    }
  }

  lemma UpsertKeepsCurrent(capacity: nat, history: seq<Sample>, slots: seq<Sample>)
    requires history != [] && |slots| <= capacity
    requires forall k :: 0 <= k < |slots| ==> IsCurrent(history[..|history| - 1], slots[k])
    requires var index := Find(slots, history[|history| - 1].signalId);
      && (forall k :: 0 <= k < |slots| && k != index ==> slots[k].signalId != history[|history| - 1].signalId)
      && (|slots| < capacity && index == |slots| ==>
            Find(history[..|history| - 1], history[|history| - 1].signalId) == |history| - 1)
    ensures var updated := Upsert(capacity, slots, history[|history| - 1]).0;
      forall k :: 0 <= k < |updated| ==> IsCurrent(history, updated[k])
  {
    var incoming := history[|history| - 1];
    var index := Find(slots, incoming.signalId);
    OtherSlotsStay(history, slots, index);
    if index < |slots| {
      if incoming.timestampMs < slots[index].timestampMs {
        OthersStayCurrent(history, slots[index]);
      } else {
        NewestBecomesCurrent(history, slots[index]);
      }
    } else if |slots| < capacity {
      FirstIsCurrent(history);
    }
  }

  lemma OnlySlot(capacity: nat, history: seq<Sample>, id: seq<Byte>)
    ensures var slots := Stored(capacity, history);
      forall k :: 0 <= k < |slots| && k != Find(slots, id) ==> slots[k].signalId != id
  {
    var slots, ids := Stored(capacity, history), Appearances(history);
    SlotsAreTheFirst(capacity, history);
    AppearancesAreExact(history);
    forall k | 0 <= k < |slots| && k != Find(slots, id) ensures slots[k].signalId != id {
      assert Find(slots, id) < k ==> ids[Find(slots, id)] != ids[k];
    }
  }

  // A signal without a slot in a store that is not full was never submitted.
  lemma NotYetSeen(capacity: nat, history: seq<Sample>, id: seq<Byte>)
    requires var slots := Stored(capacity, history); |slots| < capacity && Find(slots, id) == |slots|
    ensures Find(history, id) == |history|
  {
    SlotsAreTheFirst(capacity, history);
    AppearancesAreExact(history);
    assert id !in Appearances(history);
  }

  /** After any sequence of submissions the slots are exactly the reference. */
  lemma SlotsAreExact(capacity: nat, history: seq<Sample>)
    ensures Exact(capacity, history, Stored(capacity, history))
  {
    SlotsAreTheFirst(capacity, history);
    SlotsAreCurrent(capacity, history);
  }

  lemma OtherSlotsStay(history: seq<Sample>, slots: seq<Sample>, index: nat)
    requires history != []
    requires forall k :: 0 <= k < |slots| ==> IsCurrent(history[..|history| - 1], slots[k])
    requires forall k :: 0 <= k < |slots| && k != index ==> slots[k].signalId != history[|history| - 1].signalId
    ensures forall k :: 0 <= k < |slots| && k != index ==> IsCurrent(history, slots[k])
  {
    forall k | 0 <= k < |slots| && k != index ensures IsCurrent(history, slots[k]) {
      OthersStayCurrent(history, slots[k]);
    }
  }

  /** A lookup finds a signal exactly when it was among the first ones, and then finds its current sample. */
  lemma LookupIsCurrent(capacity: nat, history: seq<Sample>, id: seq<Byte>)
    ensures var slots, ids := Stored(capacity, history), Appearances(history);
      && (Find(slots, id) < |slots| <==> id in ids[..Min(|ids|, capacity)])
      && (Find(slots, id) < |slots| ==> IsCurrent(history, slots[Find(slots, id)]))
  {
    SlotsAreExact(capacity, history);
    var slots, ids := Stored(capacity, history), Appearances(history);
    if id in ids[..Min(|ids|, capacity)] {
      var k :| 0 <= k < |slots| && ids[k] == id;
      assert slots[k].signalId == id;
    }
  }

  // Some submission of the signal carries a later time.
  predicate Outdated(history: seq<Sample>, s: Sample) {
    exists i :: 0 <= i < |history| && history[i].signalId == s.signalId && history[i].timestampMs > s.timestampMs
  }

  // A slot holds the latest time of its signal.
  lemma CurrentIsLatest(history: seq<Sample>, s: Sample, incoming: Sample)
    requires IsCurrent(history, s) && incoming.signalId == s.signalId
    ensures incoming.timestampMs < s.timestampMs <==> Outdated(history, incoming)
  {
    var i :| LastOfGreatest(history, i) && history[i] == s;
  }

  /**
   What a submission is answered follows from the history alone: a signal with a slot is updated
   unless an earlier submission carries a later time; another one gets a slot while there is one.
   */
  lemma AnswersAreExact(capacity: nat, history: seq<Sample>, incoming: Sample)
    ensures var ids := Appearances(history);
      Upsert(capacity, Stored(capacity, history), incoming).1
      == if incoming.signalId in ids[..Min(|ids|, capacity)] then
           if Outdated(history, incoming) then IgnoredOlder else Updated
         else if |ids| < capacity then Inserted
         else Full
  {
    var slots := Stored(capacity, history);
    SlotsAreExact(capacity, history);
    LookupIsCurrent(capacity, history, incoming.signalId);
    if Find(slots, incoming.signalId) < |slots| {
      CurrentIsLatest(history, slots[Find(slots, incoming.signalId)], incoming);
    }
  }
}
