/** A search over many indexers: tasks finish in any order, and a cancellation may land at any await. */
module Search {

  import opened Optional
  import opened Sorting

  /** A result of an indexer. Its download URL can carry the indexer's API key. */
  datatype Release = Release(
    guid: string,
    title: string,
    detailsUrl: Option<string>,
    downloadUrl: Option<string>,
    publishedAt: Option<string>,
    size: Option<int>,
    categories: seq<string>,
    seeders: Option<int>,
    peers: Option<int>,
    infoHash: Option<string>,
    magnetUrl: Option<string>,
    groups: seq<string>,
    poster: Option<string>,
    parts: Option<int>,
    passwordProtected: Option<bool>)

  /** The JSON object of a release. */
  datatype ReleaseData = ReleaseData(
    guid: string,
    title: string,
    detailsUrl: Option<string>,
    publishedAt: Option<string>,
    size: Option<int>,
    categories: seq<string>,
    seeders: Option<int>,
    peers: Option<int>,
    infoHash: Option<string>,
    magnetUrl: Option<string>,
    groups: seq<string>,
    poster: Option<string>,
    parts: Option<int>,
    passwordProtected: Option<bool>)

  datatype Target = Target(id: string, adapter: bool, skipStatus: Option<string>, cachedReleases: Option<seq<Release>>)

  datatype Failure = Authentication | MalformedResponse | Transient

  /** How a call of an adapter ends. */
  datatype Reply = Returned(releases: seq<Release>) | TimedOut | Failed(failure: Failure)

  datatype Answer = Answer(status: string, releases: Option<seq<Release>>)

  /** `_search`: the outcome of one target, given what its adapter would reply. */
  function Outcome(target: Target, reply: Reply): Answer
  {
    if target.cachedReleases.Some? then Answer("cached", target.cachedReleases)
    else if target.skipStatus.Some? then Answer(target.skipStatus.value, None)
    else if !target.adapter then Answer("unavailable", None)
    else
      match reply
      case Returned(releases) => Answer("completed", Some(releases))
      case TimedOut => Answer("timed_out", None)
      case Failed(failure) =>
        Answer(if failure.Authentication? then "authentication_failed"
               else if failure.MalformedResponse? then "malformed_response"
               else "failed", None)
  }

  /** `_release_data`: everything but the download URL. */
  function Kept(r: Release): ReleaseData
  {
    ReleaseData(r.guid, r.title, r.detailsUrl, r.publishedAt, r.size, r.categories, r.seeders, r.peers, r.infoHash, r.magnetUrl,
                r.groups, r.poster, r.parts, r.passwordProtected)
  }

  /** `_release_data` of every release. */
  function Publishable(releases: seq<Release>): seq<ReleaseData>
  {
    seq(|releases|, i requires 0 <= i < |releases| => Kept(releases[i]))
  }

  // ---- what is due to whoever asked ----

  /** A target that is asked: not answered from the cache, not skipped, and with an adapter. */
  predicate Asked(target: Target)
  {
    target.adapter && target.cachedReleases == None && target.skipStatus == None
  }

  /** The status a target gets, by its cause. */
  predicate Gets(target: Target, reply: Reply, status: string)
  {
    && (target.cachedReleases != None ==> status == "cached")
    && (target.cachedReleases == None && target.skipStatus != None ==> target.skipStatus == Some(status))
    && (target.cachedReleases == None && target.skipStatus == None && !target.adapter ==> status == "unavailable")
    && (Asked(target) && reply.Returned? ==> status == "completed")
    && (Asked(target) && reply == TimedOut ==> status == "timed_out")
    && (Asked(target) && reply == Failed(Authentication) ==> status == "authentication_failed")
    && (Asked(target) && reply == Failed(MalformedResponse) ==> status == "malformed_response")
    && (Asked(target) && reply == Failed(Transient) ==> status == "failed")
  }

  /** The releases a target contributes. */
  predicate Contributes(target: Target, reply: Reply, releases: seq<Release>)
  {
    target.cachedReleases == Some(releases) || (Asked(target) && reply == Returned(releases))
  }

  /** The object is the release without its download URL. */
  predicate Withholds(data: ReleaseData, r: Release)
  {
    r == Release(data.guid, data.title, data.detailsUrl, r.downloadUrl, data.publishedAt, data.size, data.categories,
                 data.seeders, data.peers, data.infoHash, data.magnetUrl, data.groups, data.poster, data.parts,
                 data.passwordProtected)
  }

  predicate WithholdsAll(data: seq<ReleaseData>, releases: seq<Release>)
  {
    |data| == |releases| && forall i :: 0 <= i < |data| ==> Withholds(data[i], releases[i])
  }

  lemma OutcomeMeans(target: Target, reply: Reply)
    ensures Gets(target, reply, Outcome(target, reply).status)
    ensures forall releases :: Contributes(target, reply, releases) <==> Outcome(target, reply).releases == Some(releases)
  {
  }

  lemma PublishableWithholds(releases: seq<Release>)
    ensures WithholdsAll(Publishable(releases), releases)
  {
  }

  /** The status before a cancellation has gone over it. */
  predicate StatusBefore(target: Target, reply: Reply, processed: bool, status: string)
  {
    if processed then Gets(target, reply, status) else status == "pending"
  }

  /** What a copy of the search says about one target. */
  ghost predicate Tells(target: Target, reply: Reply, processed: bool, cancelled: bool, s: Snapshot)
  {
    && target.id in s.statuses
    && (exists status :: StatusBefore(target, reply, processed, status)
         && s.statuses[target.id] == if cancelled && status == "pending" then "cancelled" else status)
    && (target.id in s.results <==> processed && exists releases :: Contributes(target, reply, releases))
    && (target.id in s.results ==>
         forall releases :: Contributes(target, reply, releases) ==> WithholdsAll(s.results[target.id], releases))
  }

  /** What the event about one target says. */
  ghost predicate Announces(target: Target, reply: Reply, e: Event)
  {
    && e.ResultAdded? && e.id == target.id && Gets(target, reply, e.status)
    && (forall releases :: Contributes(target, reply, releases) ==> WithholdsAll(e.results, releases))
    && ((forall releases :: !Contributes(target, reply, releases)) ==> e.results == [])
  }

  datatype Snapshot = Snapshot(statuses: map<string, string>, results: map<string, seq<ReleaseData>>, cancelled: bool)

  datatype Event =
    | ResultAdded(id: string, status: string, results: seq<ReleaseData>)
    | Completed(statuses: map<string, string>, cancelled: bool)

  class SearchState {
    var statuses: map<string, string>
    var results: map<string, seq<ReleaseData>>
    var cancelled: bool

    constructor (statuses: map<string, string>)
      ensures this.statuses == statuses && results == map[] && !cancelled
    {
      this.statuses, results, cancelled := statuses, map[], false;
    }

    ghost function View(): Snapshot
      reads this
    {
      Snapshot(statuses, results, cancelled)
    }
  }

  /** The stored copy of the search, and the events its user has been sent. */
  class Redis {
    var stored: Option<Snapshot>
    var events: seq<Event>
    ghost var history: seq<Snapshot>

    method Store(state: SearchState)
      modifies this`stored, this`history
      ensures stored == Some(state.View()) && history == old(history) + [state.View()]
    {
      stored := Some(Snapshot(state.statuses, state.results, state.cancelled));
      history := history + [state.View()];
    }

    method Publish(event: Event)
      modifies this`events
      ensures events == old(events) + [event]
    {
      events := events + [event];
    }
  }

  // ---- what a search shows once some targets have been processed ----

  ghost predicate DistinctIds(targets: seq<Target>)
  {
    forall i, j :: 0 <= i < j < |targets| ==> targets[i].id != targets[j].id
  }

  function Ids(targets: seq<Target>): set<string>
  {
    set i | 0 <= i < |targets| :: targets[i].id
  }

  /** Targets processed, in the order their tasks completed. */
  ghost predicate IsOrder(targets: seq<Target>, order: seq<nat>)
  {
    (forall k :: 0 <= k < |order| ==> order[k] < |targets|) && Distinct(order)
  }

  /** Every target with its own outcome once it is processed, and the rest as they were left. */
  ghost predicate Shows(targets: seq<Target>, replies: seq<Reply>, order: seq<nat>, cancelled: bool, s: Snapshot)
    requires |replies| == |targets| && IsOrder(targets, order)
  {
    && s.cancelled == cancelled
    && s.statuses.Keys == Ids(targets)
    && s.results.Keys <= Ids(targets)
    && forall i :: 0 <= i < |targets| ==>
         var answer := Outcome(targets[i], replies[i]);
         var status := if i in order then answer.status else "pending";
         && s.statuses[targets[i].id] == (if cancelled && status == "pending" then "cancelled" else status)
         && (targets[i].id in s.results <==> i in order && answer.releases.Some?)
         && (targets[i].id in s.results ==> s.results[targets[i].id] == Publishable(answer.releases.value))
  }

  /** Once some targets are processed: each with its status and its results, the others pending, and nothing else. */
  ghost predicate Reports(targets: seq<Target>, replies: seq<Reply>, order: seq<nat>, cancelled: bool, s: Snapshot)
    requires |replies| == |targets|
  {
    && s.cancelled == cancelled && s.results.Keys <= s.statuses.Keys
    && (forall id :: id in s.statuses ==> exists i :: 0 <= i < |targets| && targets[i].id == id)
    && (forall i :: 0 <= i < |targets| ==> Tells(targets[i], replies[i], i in order, cancelled, s))
  }

  lemma ShowsReports(targets: seq<Target>, replies: seq<Reply>, order: seq<nat>, cancelled: bool, s: Snapshot)
    requires |replies| == |targets| && IsOrder(targets, order) && Shows(targets, replies, order, cancelled, s)
    ensures Reports(targets, replies, order, cancelled, s)
  {
    hide Outcome, Publishable, Tells;
    forall i | 0 <= i < |targets| ensures Tells(targets[i], replies[i], i in order, cancelled, s) {
      ShowsTells(targets, replies, order, cancelled, s, i);
    }
    ShowsTargets(targets, replies, order, cancelled, s);
    hide IsOrder, Shows;
  }

  lemma ShowsTargets(targets: seq<Target>, replies: seq<Reply>, order: seq<nat>, cancelled: bool, s: Snapshot)
    requires |replies| == |targets| && IsOrder(targets, order) && Shows(targets, replies, order, cancelled, s)
    ensures s.cancelled == cancelled && s.results.Keys <= s.statuses.Keys
    ensures forall id :: id in s.statuses ==> exists i :: 0 <= i < |targets| && targets[i].id == id
  {
    forall id | id in s.statuses ensures exists i :: 0 <= i < |targets| && targets[i].id == id {
      assert id in s.statuses.Keys && id in Ids(targets);
    }
  }

  lemma ShowsTells(targets: seq<Target>, replies: seq<Reply>, order: seq<nat>, cancelled: bool, s: Snapshot, i: nat)
    requires |replies| == |targets| && IsOrder(targets, order) && Shows(targets, replies, order, cancelled, s) && i < |targets|
    ensures Tells(targets[i], replies[i], i in order, cancelled, s)
  {
    hide Outcome, Gets, Contributes, Publishable, WithholdsAll, IsOrder;
    IdIsOne(targets, i);
    OutcomeMeans(targets[i], replies[i]);
    var answer := Outcome(targets[i], replies[i]);
    var status := if i in order then answer.status else "pending";
    assert StatusBefore(targets[i], replies[i], i in order, status);
    assert s.statuses[targets[i].id] == if cancelled && status == "pending" then "cancelled" else status;
    if answer.releases.Some? { PublishableWithholds(answer.releases.value); }
  }

  /** Each of the first copies reports the targets processed by then. */
  ghost predicate CopiesReport(targets: seq<Target>, replies: seq<Reply>, order: seq<nat>, history: seq<Snapshot>, copies: nat)
    requires |replies| == |targets|
  {
    && copies <= |history| && copies <= |order| + 1
    && forall k :: 0 <= k < copies ==> Reports(targets, replies, order[..k], false, history[k])
  }

  lemma StoredReport(targets: seq<Target>, replies: seq<Reply>, order: seq<nat>, copies: seq<Snapshot>, history: seq<Snapshot>)
    requires |replies| == |targets| && Stored(targets, replies, order, copies) && copies <= history
    ensures CopiesReport(targets, replies, order, history, |copies|)
  {
    hide Shows, Reports, IsOrder;
    forall k | 0 <= k < |copies| ensures Reports(targets, replies, order[..k], false, history[k]) {
      ShowsReports(targets, replies, order[..k], false, copies[k]);
    }
  }

  /** The events, one for each target in the order they were processed. */
  ghost predicate AnnouncedInOrder(targets: seq<Target>, replies: seq<Reply>, order: seq<nat>, events: seq<Event>)
    requires |replies| == |targets|
  {
    && |events| == |order|
    && forall k :: 0 <= k < |order| ==> order[k] < |targets| && Announces(targets[order[k]], replies[order[k]], events[k])
  }

  lemma AddedAnnounces(target: Target, reply: Reply)
    ensures Announces(target, reply, Added(target, reply))
  {
    hide Outcome, Gets, Contributes, Publishable, WithholdsAll;
    OutcomeMeans(target, reply);
    var answer := Outcome(target, reply);
    if answer.releases.Some? { PublishableWithholds(answer.releases.value); }
  }

  lemma AddedInOrderAnnounces(targets: seq<Target>, replies: seq<Reply>, order: seq<nat>, events: seq<Event>)
    requires |replies| == |targets| && (forall k :: 0 <= k < |order| ==> order[k] < |targets|)
    requires AddedInOrder(targets, replies, order) <= events
    ensures |order| <= |events| && AnnouncedInOrder(targets, replies, order, events[..|order|])
  {
    hide Added, Announces;
    forall k | 0 <= k < |order| ensures Announces(targets[order[k]], replies[order[k]], Added(targets[order[k]], replies[order[k]])) {
      AddedAnnounces(targets[order[k]], replies[order[k]]);
    }
  }

  function Added(target: Target, reply: Reply): Event
  {
    var answer := Outcome(target, reply);
    ResultAdded(target.id, answer.status, if answer.releases.Some? then Publishable(answer.releases.value) else [])
  }

  function AddedInOrder(targets: seq<Target>, replies: seq<Reply>, order: seq<nat>): seq<Event>
    requires |replies| == |targets| && forall k :: 0 <= k < |order| ==> order[k] < |targets|
  {
    seq(|order|, k requires 0 <= k < |order| => Added(targets[order[k]], replies[order[k]]))
  }

  /** The stored copies: copy number `k` shows the first `k` targets processed, and no other. */
  ghost predicate Stored(targets: seq<Target>, replies: seq<Reply>, order: seq<nat>, history: seq<Snapshot>)
    requires |replies| == |targets|
  {
    |history| <= |order| + 1 &&
    forall k :: 0 <= k < |history| ==> IsOrder(targets, order[..k]) && Shows(targets, replies, order[..k], false, history[k])
  }

  lemma OrderPrefix(targets: seq<Target>, order: seq<nat>, k: nat)
    requires IsOrder(targets, order) && k < |order|
    ensures IsOrder(targets, order[..k]) && IsOrder(targets, order[..k + 1])
    ensures order[..k + 1] == order[..k] + [order[k]] && order[k] !in order[..k]
  {
  }

  lemma ShowsStart(targets: seq<Target>, replies: seq<Reply>, s: Snapshot)
    requires |replies| == |targets| && DistinctIds(targets)
    requires s.statuses == map id | id in Ids(targets) :: "pending"
    requires s.results == map[] && !s.cancelled
    ensures Shows(targets, replies, [], false, s)
  {
  }

  lemma ShowsNext(targets: seq<Target>, replies: seq<Reply>, order: seq<nat>, i: nat, s: Snapshot, s': Snapshot)
    requires |replies| == |targets| && DistinctIds(targets) && i < |targets|
    requires IsOrder(targets, order) && IsOrder(targets, order + [i]) && i !in order
    requires Shows(targets, replies, order, false, s)
    requires
      var answer := Outcome(targets[i], replies[i]);
      s' == Snapshot(s.statuses[targets[i].id := answer.status],
                     if answer.releases.Some? then s.results[targets[i].id := Publishable(answer.releases.value)] else s.results,
                     false)
    ensures Shows(targets, replies, order + [i], false, s')
  {
    hide Outcome, Publishable, Ids;
    var id := targets[i].id;
    IdIsOne(targets, i);
    forall j | 0 <= j < |targets| && j != i ensures targets[j].id != id && (j in order + [i] <==> j in order) {
    }
    assert i in order + [i];
    hide DistinctIds, IsOrder;
  }

  lemma IdIsOne(targets: seq<Target>, i: nat)
    requires i < |targets|
    ensures targets[i].id in Ids(targets)
  {
  }

  lemma ShowsCancelled(targets: seq<Target>, replies: seq<Reply>, order: seq<nat>, s: Snapshot, statuses: map<string, string>)
    requires |replies| == |targets| && IsOrder(targets, order) && Shows(targets, replies, order, false, s)
    requires statuses.Keys == s.statuses.Keys
    requires forall id :: id in statuses ==> statuses[id] == if s.statuses[id] == "pending" then "cancelled" else s.statuses[id]
    ensures Shows(targets, replies, order, true, Snapshot(statuses, s.results, true))
  {
  }

  lemma StoredMore(targets: seq<Target>, replies: seq<Reply>, order: seq<nat>, history: seq<Snapshot>, s: Snapshot)
    requires |replies| == |targets| && IsOrder(targets, order) && Stored(targets, replies, order, history)
    requires |history| <= |order| && Shows(targets, replies, order[..|history|], false, s)
    requires IsOrder(targets, order[..|history|])
    ensures Stored(targets, replies, order, history + [s])
  {
    hide Shows, IsOrder;
  }

  function Indices(n: nat): (all: set<nat>)
    ensures |all| == n && forall i :: i in all <==> 0 <= i < n
  {
    if n == 0 then {}
    else
      var rest := Indices(n - 1);
      assert n - 1 !in rest;
      rest + {n - 1}
  }

  lemma OrderFull(targets: seq<Target>, order: seq<nat>)
    requires IsOrder(targets, order) && |order| == |targets|
    ensures forall i :: 0 <= i < |targets| ==> i in order
  {
    var all, seen := Indices(|targets|), set k | 0 <= k < |order| :: order[k];
    Seen(order);
    assert seen <= all;
    SubsetEqual(seen, all);
    forall i | 0 <= i < |targets| ensures i in order { assert i in seen; }
  }

  lemma {:induction false} Seen(order: seq<nat>)
    requires Distinct(order)
    ensures |set k | 0 <= k < |order| :: order[k]| == |order|
  {
    if order != [] {
      var front := order[..|order| - 1];
      Seen(front);
      assert (set k | 0 <= k < |order| :: order[k]) == (set k | 0 <= k < |front| :: front[k]) + {order[|order| - 1]};
    }
  }

  lemma SubsetEqual(a: set<nat>, b: set<nat>)
    requires a <= b && |a| == |b|
    ensures a == b
  {
    assert b == a + (b - a);
    assert |b| == |a| + |b - a|;
  }

  lemma AddedNext(targets: seq<Target>, replies: seq<Reply>, order: seq<nat>, i: nat)
    requires |replies| == |targets| && (forall k :: 0 <= k < |order| ==> order[k] < |targets|) && i < |targets|
    ensures AddedInOrder(targets, replies, order + [i]) == AddedInOrder(targets, replies, order) + [Added(targets[i], replies[i])]
  {
  }

  lemma {:induction false} NoEnds(targets: seq<Target>, replies: seq<Reply>, order: seq<nat>)
    requires |replies| == |targets| && forall k :: 0 <= k < |order| ==> order[k] < |targets|
    ensures Ends(AddedInOrder(targets, replies, order)) == 0
    decreases |order|
  {
    if order != [] {
      var front := order[..|order| - 1];
      NoEnds(targets, replies, front);
      assert order == front + [order[|order| - 1]];
      AddedNext(targets, replies, front, order[|order| - 1]);
      OneMoreEnd(AddedInOrder(targets, replies, front), Added(targets[order[|order| - 1]], replies[order[|order| - 1]]));
    }
  }

  lemma OneMoreEnd(events: seq<Event>, e: Event)
    ensures Ends(events + [e]) == Ends(events) + if e.Completed? then 1 else 0
  {
    assert (events + [e])[..|events|] == events;
  }

  /** The `except` clause's loop: whatever is still pending was cancelled. */
  method CancelPending(state: SearchState)
    modifies state`statuses
    ensures state.statuses.Keys == old(state.statuses).Keys
    ensures forall id :: id in state.statuses ==>
      state.statuses[id] == if old(state.statuses)[id] == "pending" then "cancelled" else old(state.statuses)[id]
  {
    var todo := state.statuses.Keys;
    while todo != {}
      invariant todo <= state.statuses.Keys == old(state.statuses).Keys
      invariant forall id :: id in todo ==> state.statuses[id] == old(state.statuses)[id]
      invariant forall id :: id in state.statuses && id !in todo ==>
        state.statuses[id] == if old(state.statuses)[id] == "pending" then "cancelled" else old(state.statuses)[id]
      decreases |todo|
    {
      var id :| id in todo;
      if state.statuses[id] == "pending" {
        state.statuses := state.statuses[id := "cancelled"];
      }
      todo := todo - {id};
    }
  }

  // ---- where a cancellation may land ----

  /** The awaits of one turn. A cancellation lands in front of the store or the publication, or behind. */
  datatype Await = Waiting | Callback | Storing(done: bool) | Publishing(done: bool)

  /** Turn number |targets| is the one that publishes the end. */
  datatype Cancellation = Never | At(turn: nat, point: Await)

  /** Without a callback there is no callback to be cancelled in. */
  predicate Reached(point: Await, onResult: bool)
  {
    point.Callback? ==> onResult
  }

  predicate Lands(cancellation: Cancellation, turns: nat, onResult: bool)
  {
    cancellation.At? &&
    if cancellation.turn < turns then Reached(cancellation.point, onResult)
    else cancellation.turn == turns && cancellation.point.Publishing?
  }

  /** Targets processed when the loop is over. */
  function Processed(cancellation: Cancellation, turns: nat, onResult: bool): (n: nat)
    ensures n <= turns
  {
    if Lands(cancellation, turns, onResult) && cancellation.turn < turns
    then cancellation.turn + if cancellation.point.Waiting? then 0 else 1
    else turns
  }

  /** Copies stored by then, the first one included. */
  function Copies(cancellation: Cancellation, turns: nat, onResult: bool): (n: nat)
    ensures Processed(cancellation, turns, onResult) <= n <= Processed(cancellation, turns, onResult) + 1
  {
    if Lands(cancellation, turns, onResult) && cancellation.turn < turns
    then 1 + cancellation.turn + if cancellation.point == Storing(true) || cancellation.point.Publishing? then 1 else 0
    else 1 + turns
  }

  /** Results announced by then. */
  function Announced(cancellation: Cancellation, turns: nat, onResult: bool): (n: nat)
    ensures n <= Processed(cancellation, turns, onResult) <= n + 1
  {
    if Lands(cancellation, turns, onResult) && cancellation.turn < turns
    then cancellation.turn + if cancellation.point == Publishing(true) then 1 else 0
    else turns
  }

  /** The cancellation comes when the end has been announced already. */
  predicate ComesTooLate(cancellation: Cancellation, turns: nat)
  {
    cancellation == At(turns, Publishing(true))
  }

  // ---- the loop ----

  /** After `processed` targets: what memory shows, what was stored and what was sent. */
  ghost predicate Loop(targets: seq<Target>, replies: seq<Reply>, order: seq<nat>, processed: nat, copies: nat, sent: nat,
                       view: Snapshot, history: seq<Snapshot>, events: seq<Event>)
    requires |replies| == |targets|
  {
    && processed <= |order| && sent <= |order| && IsOrder(targets, order) && IsOrder(targets, order[..processed])
    && Shows(targets, replies, order[..processed], false, view)
    && Stored(targets, replies, order, history) && |history| == copies
    && (copies == processed + 1 ==> history[processed] == view)
    && (forall k :: 0 <= k < sent ==> order[k] < |targets|)
    && events == AddedInOrder(targets, replies, order[..sent])
  }

  lemma LoopStarts(targets: seq<Target>, replies: seq<Reply>, order: seq<nat>, view: Snapshot)
    requires |replies| == |targets| && IsOrder(targets, order) && Shows(targets, replies, [], false, view)
    ensures Loop(targets, replies, order, 0, 1, 0, view, [view], [])
  {
    hide Shows;
    assert order[..0] == [];
  }

  lemma LoopProcesses(targets: seq<Target>, replies: seq<Reply>, order: seq<nat>, k: nat, view: Snapshot, view': Snapshot,
                      history: seq<Snapshot>, events: seq<Event>)
    requires |replies| == |targets| && DistinctIds(targets) && k < |order|
    requires Loop(targets, replies, order, k, k + 1, k, view, history, events) && order[k] < |targets|
    requires view' == Recorded(targets[order[k]], replies[order[k]], view)
    ensures Loop(targets, replies, order, k + 1, k + 1, k, view', history, events)
  {
    OrderPrefix(targets, order, k);
    hide Stored, DistinctIds, IsOrder, AddedInOrder;
    ShowsNext(targets, replies, order[..k], order[k], view, view');
    hide Shows;
  }

  lemma LoopStores(targets: seq<Target>, replies: seq<Reply>, order: seq<nat>, k: nat, view: Snapshot,
                   history: seq<Snapshot>, events: seq<Event>)
    requires |replies| == |targets| && k < |order|
    requires Loop(targets, replies, order, k + 1, k + 1, k, view, history, events)
    ensures Loop(targets, replies, order, k + 1, k + 2, k, view, history + [view], events)
  {
    hide Shows, IsOrder, Stored, AddedInOrder;
    StoredMore(targets, replies, order, history, view);
  }

  lemma LoopSends(targets: seq<Target>, replies: seq<Reply>, order: seq<nat>, k: nat, view: Snapshot,
                  history: seq<Snapshot>, events: seq<Event>)
    requires |replies| == |targets| && k < |order| && order[k] < |targets|
    requires Loop(targets, replies, order, k + 1, k + 2, k, view, history, events)
    ensures Loop(targets, replies, order, k + 1, k + 2, k + 1, view, history,
                 events + [Added(targets[order[k]], replies[order[k]])])
  {
    hide Shows, Stored, Added;
    OrderPrefix(targets, order, k);
    AddedNext(targets, replies, order[..k], order[k]);
  }

  /** A turn that records, stores and announces one outcome. */
  function Recorded(target: Target, reply: Reply, s: Snapshot): Snapshot
  {
    var answer := Outcome(target, reply);
    Snapshot(s.statuses[target.id := answer.status],
             if answer.releases.Some? then s.results[target.id := Publishable(answer.releases.value)] else s.results,
             s.cancelled)
  }

  lemma EventsSent(targets: seq<Target>, replies: seq<Reply>, order: seq<nat>, k: nat, view: Snapshot,
                   history: seq<Snapshot>, events: seq<Event>)
    requires |replies| == |targets| && Loop(targets, replies, order, k, k + 1, k, view, history, events)
    ensures |events| == k
  {
    hide Shows, Stored;
  }

  lemma LoopTells(targets: seq<Target>, replies: seq<Reply>, order: seq<nat>, k: nat, view: Snapshot,
                  history: seq<Snapshot>, events: seq<Event>)
    requires |replies| == |targets| && k < |order| && order[k] < |targets|
    requires Loop(targets, replies, order, k + 1, k + 1, k, view, history, events)
    ensures Tells(targets[order[k]], replies[order[k]], true, false, view)
  {
    hide Shows, Stored, AddedInOrder, Tells, IsOrder;
    assert order[..k + 1][k] == order[k];
    ShowsTells(targets, replies, order[..k + 1], false, view, order[k]);
  }

  lemma EveryAwait(point: Await)
    ensures point in {Waiting, Callback, Storing(false), Storing(true), Publishing(false), Publishing(true)}
  {
  }

  /** One turn of the loop of `run_search`, once its task is done; `point` is where a cancellation lands
      in it, if one does. */
  method ProcessOne(redis: Redis, state: SearchState, targets: seq<Target>, replies: seq<Reply>, onResult: bool,
                    order: seq<nat>, k: nat, point: Option<Await>)
    returns (interrupted: bool)
    requires |replies| == |targets| && DistinctIds(targets) && k < |order| && order[k] < |targets|
    requires point != Some(Waiting)
    requires Loop(targets, replies, order, k, k + 1, k, state.View(), redis.history, redis.events)
    modifies redis, state
    ensures interrupted <==> point.Some? && Reached(point.value, onResult)
    ensures
      var stored := !interrupted || point == Some(Storing(true)) || point.value.Publishing?;
      var sent := !interrupted || point == Some(Publishing(true));
      Loop(targets, replies, order, k + 1, k + 1 + (if stored then 1 else 0), k + (if sent then 1 else 0),
           state.View(), redis.history, redis.events)
    ensures Tells(targets[order[k]], replies[order[k]], true, false, state.View())
    ensures !interrupted || point == Some(Publishing(true)) ==>
      |redis.events| == k + 1 && Announces(targets[order[k]], replies[order[k]], redis.events[k])
    ensures !interrupted ==> redis.stored == Some(state.View())
  {
    hide Loop, Outcome, Tells, Announces;
    EventsSent(targets, replies, order, k, state.View(), redis.history, redis.events);
    if point.Some? { EveryAwait(point.value); }
    ghost var before := state.View();
    var i := order[k];
    var answer := Outcome(targets[i], replies[i]);
    state.statuses := state.statuses[targets[i].id := answer.status];
    if answer.releases.Some? {
      state.results := state.results[targets[i].id := Publishable(answer.releases.value)];
    }
    LoopProcesses(targets, replies, order, k, before, state.View(), redis.history, redis.events);
    LoopTells(targets, replies, order, k, state.View(), redis.history, redis.events);
    if onResult && point == Some(Callback) { return true; }
    if point == Some(Storing(false)) { return true; }
    LoopStores(targets, replies, order, k, state.View(), redis.history, redis.events);
    redis.Store(state);
    if point == Some(Storing(true)) || point == Some(Publishing(false)) { return true; }
    LoopSends(targets, replies, order, k, state.View(), redis.history, redis.events);
    AddedAnnounces(targets[i], replies[i]);
    redis.Publish(Added(targets[i], replies[i]));
    return point == Some(Publishing(true));
  }

  /** The loop of `run_search`, its tasks finishing in the given order. */
  method RunTasks(redis: Redis, state: SearchState, targets: seq<Target>, replies: seq<Reply>, onResult: bool,
                  order: seq<nat>, cancellation: Cancellation)
    returns (raised: bool)
    requires |replies| == |targets| && DistinctIds(targets) && IsOrder(targets, order)
    requires Loop(targets, replies, order, 0, 1, 0, state.View(), redis.history, redis.events)
    requires redis.stored == Some(state.View())
    modifies redis, state
    ensures raised <==> Lands(cancellation, |order|, onResult) && cancellation.turn < |order|
    ensures Loop(targets, replies, order, Processed(cancellation, |order|, onResult), Copies(cancellation, |order|, onResult),
                 Announced(cancellation, |order|, onResult), state.View(), redis.history, redis.events)
    ensures !raised ==> redis.stored == Some(state.View())
  {
    hide Loop;
    for k := 0 to |order|
      invariant Loop(targets, replies, order, k, k + 1, k, state.View(), redis.history, redis.events)
      invariant redis.stored == Some(state.View())
      invariant cancellation.At? && cancellation.turn < k ==> !Lands(cancellation, |order|, onResult)
    {
      var point := if cancellation.At? && cancellation.turn == k then Some(cancellation.point) else None;
      if point == Some(Waiting) { return true; }
      var interrupted := ProcessOne(redis, state, targets, replies, onResult, order, k, point);
      if interrupted { return true; }
    }
    return false;
  }

  function Ends(events: seq<Event>): nat
  {
    if events == [] then 0 else Ends(events[..|events| - 1]) + if events[|events| - 1].Completed? then 1 else 0
  }

  /** The `except` clause of `run_search`. */
  method Abandon(redis: Redis, state: SearchState, ghost targets: seq<Target>, ghost replies: seq<Reply>, ghost order: seq<nat>)
    requires |replies| == |targets| && IsOrder(targets, order) && Shows(targets, replies, order, false, state.View())
    modifies redis, state
    ensures Shows(targets, replies, order, true, state.View())
    ensures redis.stored == Some(state.View()) && redis.history == old(redis.history) + [state.View()]
    ensures redis.events == old(redis.events) + [Completed(state.statuses, true)]
  {
    hide Shows;
    ghost var shown := state.View();
    state.cancelled := true;
    CancelPending(state);
    ShowsCancelled(targets, replies, order, shown, state.statuses);
    redis.Store(state);
    redis.Publish(Completed(state.statuses, true));
  }

  /** `run_search`: the tasks finish in the order `order`, and a cancellation lands where `cancellation`
      says. `shown` is what memory shows when the loop is over. */
  method RunSearch(redis: Redis, targets: seq<Target>, replies: seq<Reply>, onResult: bool, order: seq<nat>,
                   cancellation: Cancellation)
    returns (state: SearchState, raised: bool, ghost shown: Snapshot)
    requires |replies| == |targets| && DistinctIds(targets) && IsOrder(targets, order) && |order| == |targets|
    requires redis.history == [] && redis.events == []
    modifies redis
    ensures fresh(state) && redis.stored == Some(state.View())
    ensures raised <==> Lands(cancellation, |targets|, onResult)
    ensures
      var processed := Processed(cancellation, |targets|, onResult);
      && IsOrder(targets, order[..processed])
      && Shows(targets, replies, order[..processed], false, shown)
      && Shows(targets, replies, order[..processed], raised, state.View())
    ensures Reports(targets, replies, order[..Processed(cancellation, |targets|, onResult)], raised, state.View())
    ensures CopiesReport(targets, replies, order, redis.history, Copies(cancellation, |targets|, onResult))
    ensures
      var sent := Announced(cancellation, |targets|, onResult);
      sent <= |redis.events| && AnnouncedInOrder(targets, replies, order[..sent], redis.events[..sent])
    ensures
      var copies := Copies(cancellation, |targets|, onResult);
      && |redis.history| == copies + (if raised then 1 else 0)
      && Stored(targets, replies, order, redis.history[..copies])
      && redis.history[|redis.history| - 1] == state.View()
    ensures redis.events
         == AddedInOrder(targets, replies, order[..Announced(cancellation, |targets|, onResult)])
            + (if ComesTooLate(cancellation, |targets|) then [Completed(shown.statuses, false)] else [])
            + [Completed(state.statuses, raised)]
    ensures Ends(redis.events) == if ComesTooLate(cancellation, |targets|) then 2 else 1
  {
    hide Shows, Reports, CopiesReport, Stored, AddedInOrder, AnnouncedInOrder, Loop, Ends, IsOrder, DistinctIds;
    state := new SearchState(map id | id in Ids(targets) :: "pending");
    ShowsStart(targets, replies, state.View());
    redis.Store(state);
    LoopStarts(targets, replies, order, state.View());
    assert redis.history == [state.View()];
    raised := RunTasks(redis, state, targets, replies, onResult, order, cancellation);
    shown := state.View();
    ghost var processed, sent := Processed(cancellation, |targets|, onResult), Announced(cancellation, |targets|, onResult);
    ghost var copies := redis.history;
    LoopIs(targets, replies, order, processed, Copies(cancellation, |targets|, onResult), sent, shown, copies, redis.events);
    NoEnds(targets, replies, order[..sent]);
    if !raised {
      raised := cancellation.At? && cancellation.turn == |targets| && cancellation.point.Publishing?;
      if !raised || cancellation.point == Publishing(true) {
        OneMoreEnd(redis.events, Completed(state.statuses, false));
        redis.Publish(Completed(state.statuses, false));
      }
    }
    if raised {
      ghost var events := redis.events;
      Abandon(redis, state, targets, replies, order[..processed]);
      OneMoreEnd(events, Completed(state.statuses, true));
      assert redis.history[..|copies|] == copies;
    } else {
      assert redis.history[..|copies|] == copies;
    }
    ShowsReports(targets, replies, order[..processed], raised, state.View());
    StoredReport(targets, replies, order, copies, redis.history);
    AddedInOrderAnnounces(targets, replies, order[..sent], redis.events);
  }

  lemma LoopIs(targets: seq<Target>, replies: seq<Reply>, order: seq<nat>, processed: nat, copies: nat, sent: nat,
               view: Snapshot, history: seq<Snapshot>, events: seq<Event>)
    requires |replies| == |targets| && Loop(targets, replies, order, processed, copies, sent, view, history, events)
    ensures processed <= |order| && sent <= |order| && IsOrder(targets, order[..processed])
    ensures Shows(targets, replies, order[..processed], false, view)
    ensures Stored(targets, replies, order, history) && |history| == copies
    ensures events == AddedInOrder(targets, replies, order[..sent])
    ensures copies == processed + 1 ==> history[processed] == view
  {
  }

  // ---- what follows for whoever reads the search ----

  /** Copies stored one after the other never take an outcome back. */
  lemma OutcomesStay(targets: seq<Target>, replies: seq<Reply>, order: seq<nat>, earlier: nat, later: nat,
                     cancelled: bool, s: Snapshot, s': Snapshot, i: nat)
    requires |replies| == |targets| && IsOrder(targets, order) && earlier <= later <= |order| && i < |targets|
    requires IsOrder(targets, order[..earlier]) && IsOrder(targets, order[..later])
    requires Shows(targets, replies, order[..earlier], false, s) && Shows(targets, replies, order[..later], cancelled, s')
    ensures
      var id := targets[i].id;
      && id in s.statuses && id in s'.statuses
      && (s.statuses[id] != "pending" ==> s'.statuses[id] == s.statuses[id])
      && (id in s.results ==> id in s'.results && s'.results[id] == s.results[id])
  {
  }

  // ---- download URLs ----

  predicate SameRelease(a: Release, b: Release)
  {
    a.(downloadUrl := None) == b.(downloadUrl := None)
  }

  predicate SameReleases(a: seq<Release>, b: seq<Release>)
  {
    |a| == |b| && forall i :: 0 <= i < |a| ==> SameRelease(a[i], b[i])
  }

  /** The same target, but for the URLs of what is cached for it. */
  predicate SameTarget(a: Target, b: Target)
  {
    && a.id == b.id && a.adapter == b.adapter && a.skipStatus == b.skipStatus
    && (a.cachedReleases.Some? <==> b.cachedReleases.Some?)
    && (a.cachedReleases.Some? ==> SameReleases(a.cachedReleases.value, b.cachedReleases.value))
  }

  /** The same reply, but for the URLs of what it returned. */
  predicate SameReply(a: Reply, b: Reply)
  {
    a == b || (a.Returned? && b.Returned? && SameReleases(a.releases, b.releases))
  }

  lemma UrlsDoNotPublish(a: seq<Release>, b: seq<Release>)
    requires SameReleases(a, b)
    ensures Publishable(a) == Publishable(b)
  {
  }

  /** Two targets that answer with the same status and the same published releases. */
  predicate AnswerAlike(target: Target, target': Target, reply: Reply, reply': Reply)
  {
    var a, b := Outcome(target, reply), Outcome(target', reply');
    && target.id == target'.id && a.status == b.status && (a.releases.Some? <==> b.releases.Some?)
    && (a.releases.Some? ==> Publishable(a.releases.value) == Publishable(b.releases.value))
  }

  lemma UrlsDoNotDecide(target: Target, target': Target, reply: Reply, reply': Reply)
    requires SameTarget(target, target') && SameReply(reply, reply')
    ensures AnswerAlike(target, target', reply, reply')
  {
    var a, b := Outcome(target, reply).releases, Outcome(target', reply').releases;
    if a.Some? && b.Some? { UrlsDoNotPublish(a.value, b.value); }
  }

  lemma AlikeAdded(target: Target, target': Target, reply: Reply, reply': Reply)
    requires AnswerAlike(target, target', reply, reply')
    ensures Added(target, reply) == Added(target', reply') && target.id == target'.id
  {
    hide Outcome, Publishable;
  }

  lemma AlikeIds(targets: seq<Target>, targets': seq<Target>)
    requires |targets| == |targets'| && forall i :: 0 <= i < |targets| ==> targets[i].id == targets'[i].id
    ensures Ids(targets) == Ids(targets')
  {
  }

  lemma AlikeShow(targets: seq<Target>, targets': seq<Target>, replies: seq<Reply>, replies': seq<Reply>,
                  order: seq<nat>, cancelled: bool, s: Snapshot)
    requires |replies| == |targets| == |targets'| == |replies'| && IsOrder(targets, order) && IsOrder(targets', order)
    requires forall i :: 0 <= i < |targets| ==> AnswerAlike(targets[i], targets'[i], replies[i], replies'[i])
    requires Ids(targets) == Ids(targets') && Shows(targets, replies, order, cancelled, s)
    ensures Shows(targets', replies', order, cancelled, s)
  {
    hide Outcome, Publishable, Ids, IsOrder;
  }

  /** A download URL shows neither in a stored copy nor in an event: searches whose releases differ in
      nothing else store the same copies and send the same events, in every order. */
  lemma UrlsDoNotShow(targets: seq<Target>, targets': seq<Target>, replies: seq<Reply>, replies': seq<Reply>,
                      order: seq<nat>, cancelled: bool, s: Snapshot)
    requires |replies| == |targets| == |targets'| == |replies'| && IsOrder(targets, order)
    requires forall i :: 0 <= i < |targets| ==> SameTarget(targets[i], targets'[i]) && SameReply(replies[i], replies'[i])
    ensures IsOrder(targets', order)
    ensures Shows(targets, replies, order, cancelled, s) <==> Shows(targets', replies', order, cancelled, s)
    ensures AddedInOrder(targets, replies, order) == AddedInOrder(targets', replies', order)
  {
    hide Outcome, Added, SameTarget, SameReply, AnswerAlike, Ids, Shows;
    forall i | 0 <= i < |targets|
      ensures AnswerAlike(targets[i], targets'[i], replies[i], replies'[i])
      ensures AnswerAlike(targets'[i], targets[i], replies'[i], replies[i])
      ensures targets[i].id == targets'[i].id && Added(targets[i], replies[i]) == Added(targets'[i], replies'[i])
    {
      UrlsDoNotDecide(targets[i], targets'[i], replies[i], replies'[i]);
      AlikeBack(targets[i], targets'[i], replies[i], replies'[i]);
      AlikeAdded(targets[i], targets'[i], replies[i], replies'[i]);
    }
    AlikeIds(targets, targets');
    if Shows(targets, replies, order, cancelled, s) {
      AlikeShow(targets, targets', replies, replies', order, cancelled, s);
    }
    if Shows(targets', replies', order, cancelled, s) {
      AlikeShow(targets', targets, replies', replies, order, cancelled, s);
    }
  }

  lemma AlikeBack(target: Target, target': Target, reply: Reply, reply': Reply)
    requires AnswerAlike(target, target', reply, reply')
    ensures AnswerAlike(target', target, reply', reply)
  {
    hide Outcome, Publishable;
  }

  /** The order in which the tasks of an uncancelled search finish does not matter. */
  lemma OrderIrrelevant(targets: seq<Target>, replies: seq<Reply>, order: seq<nat>, order': seq<nat>, s: Snapshot, s': Snapshot)
    requires |replies| == |targets| && IsOrder(targets, order) && IsOrder(targets, order')
    requires |order| == |targets| == |order'|
    requires Shows(targets, replies, order, false, s) && Shows(targets, replies, order', false, s')
    ensures s == s'
  {
    hide Outcome, IsOrder, Shows;
    OrderFull(targets, order);
    OrderFull(targets, order');
    ShownKeys(targets, replies, order, s);
    ShownKeys(targets, replies, order', s');
    forall id | id in Ids(targets)
      ensures s.statuses[id] == s'.statuses[id]
      ensures id in s.results <==> id in s'.results
      ensures id in s.results ==> s.results[id] == s'.results[id]
    {
      var i :| 0 <= i < |targets| && targets[i].id == id;
      ShownAt(targets, replies, order, s, i);
      ShownAt(targets, replies, order', s', i);
    }
  }

  lemma ShownKeys(targets: seq<Target>, replies: seq<Reply>, order: seq<nat>, s: Snapshot)
    requires |replies| == |targets| && IsOrder(targets, order) && Shows(targets, replies, order, false, s)
    ensures s.statuses.Keys == Ids(targets) && s.results.Keys <= Ids(targets) && !s.cancelled
  {
  }

  lemma ShownAt(targets: seq<Target>, replies: seq<Reply>, order: seq<nat>, s: Snapshot, i: nat)
    requires |replies| == |targets| && IsOrder(targets, order) && Shows(targets, replies, order, false, s)
    requires i < |targets| && i in order
    ensures
      var id, answer := targets[i].id, Outcome(targets[i], replies[i]);
      && id in s.statuses && s.statuses[id] == answer.status
      && (id in s.results <==> answer.releases.Some?)
      && (id in s.results ==> s.results[id] == Publishable(answer.releases.value))
  {
  }

  /** A target that will report itself pending: only a skipped one can, and none that is loaded is. */
  predicate ReportsPending(target: Target)
  {
    target.cachedReleases.None? && target.skipStatus == Some("pending")
  }

  /** When a search is over nothing is pending: always after a cancellation, and otherwise exactly when
      no target was skipped with the status "pending" itself. */
  lemma NothingPending(targets: seq<Target>, replies: seq<Reply>, order: seq<nat>, raised: bool, s: Snapshot)
    requires |replies| == |targets| && IsOrder(targets, order) && Shows(targets, replies, order, raised, s)
    requires !raised ==> |order| == |targets|
    ensures s.statuses.Keys == Ids(targets)
    ensures (forall id :: id in s.statuses ==> s.statuses[id] != "pending")
      <==> raised || forall i :: 0 <= i < |targets| ==> !ReportsPending(targets[i])
  {
    if !raised { OrderFull(targets, order); }
    forall i | 0 <= i < |targets|
      ensures targets[i].id in s.statuses
      ensures s.statuses[targets[i].id] == "pending" <==> !raised && ReportsPending(targets[i])
    {
      assert targets[i].id in Ids(targets);
      PendingOutcome(targets[i], replies[i]);
    }
    hide Outcome, ReportsPending, Shows;
  }

  lemma PendingOutcome(target: Target, reply: Reply)
    ensures Outcome(target, reply).status == "pending" <==> ReportsPending(target)
  {
  }

  // ---- which targets are searched ----

  /** The releases cached for one indexer, in the order the cache returned them. */
  function CachedFor(rows: seq<(string, Release)>, id: string): seq<Release>
  {
    if rows == [] then []
    else
      var last := rows[|rows| - 1];
      CachedFor(rows[..|rows| - 1], id) + (if last.0 == id then [last.1] else [])
  }

  function RowIds(rows: seq<(string, Release)>): set<string>
  {
    set k | 0 <= k < |rows| :: rows[k].0
  }

  /** One cached target per indexer with rows, each with all its rows and nothing to ask. */
  ghost predicate CachedTargetsOf(rows: seq<(string, Release)>, targets: seq<Target>)
  {
    && DistinctIds(targets) && Ids(targets) == RowIds(rows)
    && forall i :: 0 <= i < |targets| ==>
         targets[i] == Target(targets[i].id, false, None, Some(CachedFor(rows, targets[i].id)))
  }

  /** The dictionary of `cached_targets` after `n` rows; `ids` are its keys in the order they came. */
  ghost predicate Grouping(rows: seq<(string, Release)>, n: nat, ids: seq<string>, grouped: map<string, seq<Release>>)
    requires n <= |rows|
  {
    && Distinct(ids) && grouped.Keys == RowIds(rows[..n])
    && (forall id :: id in ids <==> id in grouped)
    && (forall id :: id in grouped ==> grouped[id] == CachedFor(rows[..n], id))
    && (forall id :: id !in grouped ==> CachedFor(rows[..n], id) == [])
  }

  lemma GroupOne(rows: seq<(string, Release)>, n: nat, ids: seq<string>, grouped: map<string, seq<Release>>,
                 id: string, release: Release)
    requires n < |rows| && rows[n] == (id, release) && Grouping(rows, n, ids, grouped)
    ensures id in grouped ==> Grouping(rows, n + 1, ids, grouped[id := grouped[id] + [release]])
    ensures id !in grouped ==>
      Grouping(rows, n + 1, ids + [id], grouped[id := []][id := grouped[id := []][id] + [release]])
  {
    hide CachedFor, RowIds, Distinct;
    RowIdsNext(rows, n);
    forall other ensures CachedFor(rows[..n + 1], other)
        == CachedFor(rows[..n], other) + if rows[n].0 == other then [rows[n].1] else []
    {
      CachedForNext(rows, n, other);
    }
    if id !in grouped {
      OneMoreDistinct(ids, id);
    }
  }

  lemma CachedForNext(rows: seq<(string, Release)>, n: nat, id: string)
    requires n < |rows|
    ensures CachedFor(rows[..n + 1], id) == CachedFor(rows[..n], id) + if rows[n].0 == id then [rows[n].1] else []
  {
    assert rows[..n + 1][..n] == rows[..n];
  }

  lemma OneMoreDistinct(ids: seq<string>, id: string)
    requires Distinct(ids) && id !in ids
    ensures Distinct(ids + [id])
  {
  }

  lemma GroupedTargets(rows: seq<(string, Release)>, ids: seq<string>, grouped: map<string, seq<Release>>, targets: seq<Target>)
    requires Grouping(rows, |rows|, ids, grouped) && |targets| == |ids|
    requires forall i :: 0 <= i < |ids| ==> ids[i] in grouped && targets[i] == Target(ids[i], false, None, Some(grouped[ids[i]]))
    ensures CachedTargetsOf(rows, targets)
  {
    assert rows[..|rows|] == rows;
    hide CachedFor, RowIds;
    forall id ensures id in Ids(targets) <==> id in RowIds(rows) {
      if id in RowIds(rows) {
        var i :| 0 <= i < |ids| && ids[i] == id;
        assert targets[i].id == id;
      }
    }
  }

  /** `cached_targets`: group the rows by indexer, first come first. */
  method CachedTargets(rows: seq<(string, Release)>) returns (targets: seq<Target>)
    ensures CachedTargetsOf(rows, targets)
  {
    var ids: seq<string> := [];
    var grouped: map<string, seq<Release>> := map[];
    assert Grouping(rows, 0, ids, grouped);
    hide CachedTargetsOf;
    for n := 0 to |rows|
      invariant Grouping(rows, n, ids, grouped)
    {
      var (id, release) := rows[n];
      GroupOne(rows, n, ids, grouped, id, release);
      hide Grouping;
      if id !in grouped {
        grouped := grouped[id := []];
        ids := ids + [id];
      }
      grouped := grouped[id := grouped[id] + [release]];
    }
    targets := seq(|ids|, i requires 0 <= i < |ids| && ids[i] in grouped => Target(ids[i], false, None, Some(grouped[ids[i]])));
    GroupedTargets(rows, ids, grouped, targets);
  }

  lemma RowIdsNext(rows: seq<(string, Release)>, n: nat)
    requires n < |rows|
    ensures RowIds(rows[..n + 1]) == RowIds(rows[..n]) + {rows[n].0}
  {
  }

  function Unanswered(configured: seq<Target>, answered: set<string>): (live: seq<Target>)
    ensures forall t :: t in live <==> t in configured && t.id !in answered
  {
    if configured == [] then []
    else (if configured[0].id !in answered then [configured[0]] else []) + Unanswered(configured[1..], answered)
  }

  /** `search_targets`: a union in which the cache wins for its own indexers and for no other. */
  method SearchTargets(rows: seq<(string, Release)>, configured: seq<Target>) returns (targets: seq<Target>)
    requires DistinctIds(configured)
    ensures DistinctIds(targets) && Ids(targets) == RowIds(rows) + Ids(configured)
    ensures forall t :: t in targets && t.id in RowIds(rows) ==> t.cachedReleases == Some(CachedFor(rows, t.id))
    ensures forall t :: t in configured && t.id !in RowIds(rows) ==> t in targets
    ensures forall t :: t in targets && t.id !in RowIds(rows) ==> t in configured
  {
    var cached := CachedTargets(rows);
    var live := Unanswered(configured, Ids(cached));
    targets := cached + live;
    UnansweredDistinct(configured, Ids(cached));
    hide Unanswered;
    forall i, j | 0 <= i < j < |targets| ensures targets[i].id != targets[j].id {
      if i < |cached| && j >= |cached| {
        assert targets[j] in live && targets[i].id in Ids(cached);
      }
    }
    forall i | 0 <= i < |targets| ensures targets[i].id in RowIds(rows) + Ids(configured) {
      if i < |cached| {
        assert cached[i].id in Ids(cached);
      } else {
        assert targets[i] in configured;
        var j :| 0 <= j < |configured| && configured[j] == targets[i];
      }
    }
    forall id | id in Ids(cached) ensures id in Ids(targets) {
      var i :| 0 <= i < |cached| && cached[i].id == id;
      assert targets[i].id == id;
    }
    forall i | 0 <= i < |configured| && configured[i].id !in Ids(cached) ensures configured[i].id in Ids(targets) {
      assert configured[i] in live;
      var j :| 0 <= j < |live| && live[j] == configured[i];
      assert targets[|cached| + j].id == configured[i].id;
    }
  }

  lemma {:induction false} UnansweredDistinct(configured: seq<Target>, answered: set<string>)
    requires DistinctIds(configured)
    ensures DistinctIds(Unanswered(configured, answered))
  {
    if configured != [] {
      UnansweredDistinct(configured[1..], answered);
      forall t | t in Unanswered(configured[1..], answered) ensures t.id != configured[0].id {
        assert t in configured[1..];
      }
    }
  }
}
