/**
 * The peer table and the active flag of `away_from_home/heartbeat.py`, without its sockets
 * and threads. One received datagram, already decoded into a uuid and a priority, is one
 * call of `Receive`; one pass of the expire loop is one call of `Expire`. Times are whole
 * seconds and are passed in.
 */
module Heartbeat {

  /** A peer not heard from for more than this many seconds is dropped. */
  const StaleAge := 5

  /** One peer's record: who it is, its priority and when it was last heard. */
  datatype Peer = Peer(uuid: string, priority: int, lastSeen: int)

  /** The largest priority in a non-empty list of records (Python's `max`). */
  function MaxPriority(snapshot: seq<Peer>): (m: int)
    requires |snapshot| > 0
    ensures forall i :: 0 <= i < |snapshot| ==> snapshot[i].priority <= m
    ensures exists i :: 0 <= i < |snapshot| && snapshot[i].priority == m
  {
    if |snapshot| == 1 then snapshot[0].priority
    else
      var rest := MaxPriority(snapshot[1..]);
      if snapshot[0].priority > rest then snapshot[0].priority else rest
  }

  /**
   * The test of `_handle_active` on a list of peer records: there are no peers, or the own
   * priority is below the largest peer priority. That holds exactly when the list is
   * empty or some peer has a larger priority than the own one.
   */
  function DerivedActive(priority: int, snapshot: seq<Peer>): (active: bool)
    ensures active <==> |snapshot| == 0 || exists i :: 0 <= i < |snapshot| && priority < snapshot[i].priority
  {
    |snapshot| == 0 || priority < MaxPriority(snapshot)
  }

  /** What the active flag must be for a peer table, stated over the table itself. */
  ghost predicate ActiveFor(priority: int, table: map<string, Peer>)
  {
    table == map[] || exists u :: u in table && priority < table[u].priority
  }

  /** A record is dropped by a sweep at `now` when it was last seen more than `StaleAge` seconds earlier. */
  predicate IsExpired(peer: Peer, now: int)
  {
    peer.lastSeen < now - StaleAge
  }

  /** The two cases of the active-flag tests: own priority 2 against peers 1 and 2 is inactive, own priority 0 is active. */
  lemma HandleActiveExamples(t: int)
    ensures var table := [Peer("some_uuid", 1, t), Peer("other_uuid", 2, t - 6)];
      !DerivedActive(2, table) && DerivedActive(0, table)
  {
  }

  // The rule above compares against the LARGEST peer priority. The instances are
  // redundant copies of which one should be active, and the lowest priority should win;
  // that calls for comparing against the SMALLEST peer priority. With three or more
  // instances the rule above lets several be active at once. Both rules are stated here
  // so the difference can be seen.

  /** The smallest priority in a non-empty list of records. */
  function MinPriority(snapshot: seq<Peer>): (m: int)
    requires |snapshot| > 0
    ensures forall i :: 0 <= i < |snapshot| ==> m <= snapshot[i].priority
    ensures exists i :: 0 <= i < |snapshot| && snapshot[i].priority == m
  {
    if |snapshot| == 1 then snapshot[0].priority
    else
      var rest := MinPriority(snapshot[1..]);
      if snapshot[0].priority < rest then snapshot[0].priority else rest
  }

  /** The intended rule: active when there are no peers or the own priority is below every peer's. */
  function LowestPriorityActive(priority: int, snapshot: seq<Peer>): (active: bool)
    ensures active <==> forall i :: 0 <= i < |snapshot| ==> priority < snapshot[i].priority
  {
    |snapshot| == 0 || priority < MinPriority(snapshot)
  }

  /** The peers instance `i` of a fully connected cluster sees: every other instance. */
  function OthersOf(cluster: seq<Peer>, i: nat): (view: seq<Peer>)
    requires i < |cluster|
    ensures |view| == |cluster| - 1
    ensures forall j :: 0 <= j < |cluster| && j != i ==> cluster[j] in view
  {
    var view := cluster[..i] + cluster[i + 1..];
    assert forall j :: 0 <= j < i ==> view[j] == cluster[j];
    assert forall j :: i < j < |cluster| ==> view[j - 1] == cluster[j];
    view
  }

  /** Under the rule as written, instances with priorities 0 and 1 in a cluster of 0, 1 and 2 are both active. */
  lemma MaxRuleAdmitsTwoActive()
    ensures var cluster := [Peer("a", 0, 0), Peer("b", 1, 0), Peer("c", 2, 0)];
      DerivedActive(0, OthersOf(cluster, 0)) && DerivedActive(1, OthersOf(cluster, 1))
  {
  }

  /** Under the intended rule, at most one instance of a fully connected cluster is active. */
  lemma LowestRuleElectsAtMostOne(cluster: seq<Peer>, i: nat, j: nat)
    requires i < |cluster| && j < |cluster|
    requires LowestPriorityActive(cluster[i].priority, OthersOf(cluster, i))
    requires LowestPriorityActive(cluster[j].priority, OthersOf(cluster, j))
    ensures i == j
  {
  }

  /** The instance with the strictly smallest priority is active under both rules. */
  lemma StrictLowestIsActive(cluster: seq<Peer>, i: nat)
    requires i < |cluster|
    requires forall j :: 0 <= j < |cluster| && j != i ==> cluster[i].priority < cluster[j].priority
    ensures LowestPriorityActive(cluster[i].priority, OthersOf(cluster, i))
    ensures DerivedActive(cluster[i].priority, OthersOf(cluster, i))
  {
  }

  /** With a single peer, as in a pair of redundant instances, the two rules agree. */
  lemma SinglePeerRulesAgree(priority: int, peer: Peer)
    ensures DerivedActive(priority, [peer]) == LowestPriorityActive(priority, [peer])
  {
  }

  /**
   * The max rule applied to any list holding exactly the records of a table (what the
   * `peers` property returns) gives the flag the table calls for.
   */
  lemma SnapshotDecidesActive(priority: int, table: map<string, Peer>, snapshot: seq<Peer>)
    requires forall i :: 0 <= i < |snapshot| ==> snapshot[i].uuid in table && table[snapshot[i].uuid] == snapshot[i]
    requires forall u :: u in table ==> table[u] in snapshot
    ensures DerivedActive(priority, snapshot) == ActiveFor(priority, table)
  {
  }

  class Heartbeat {
    const priority: int
    const uuid: string
    var peers: map<string, Peer>
    var active: bool

    /** Every record is filed under its own uuid, and the own uuid is never a peer. */
    ghost predicate WellFormed()
      reads this
    {
      uuid !in peers && forall u :: u in peers ==> peers[u].uuid == u
    }

    /** A well-formed table with the active flag derived from it. */
    ghost predicate Valid()
      reads this
    {
      WellFormed() && active == ActiveFor(priority, peers)
    }

    /** A new Heartbeat knows no peers and is active; the uuid is passed in rather than generated. */
    constructor (priority: int, uuid: string)
      ensures Valid()
      ensures this.priority == priority && this.uuid == uuid
      ensures peers == map[] && active
    {
      this.priority := priority;
      this.uuid := uuid;
      peers := map[];
      active := true;
    }

    /**
     * The `peers` property: a fresh list holding each record of the table exactly once,
     * in no particular order. The list is a value, so later changes to the table do not
     * show through it.
     */
    method Peers() returns (snapshot: seq<Peer>)
      requires WellFormed()
      ensures forall i :: 0 <= i < |snapshot| ==> snapshot[i].uuid in peers && peers[snapshot[i].uuid] == snapshot[i]
      ensures forall u :: u in peers ==> peers[u] in snapshot
      ensures forall i, j :: 0 <= i < j < |snapshot| ==> snapshot[i].uuid != snapshot[j].uuid
    {
      snapshot := [];
      var pending := peers.Keys;
      while pending != {}
        invariant pending <= peers.Keys
        invariant forall i :: 0 <= i < |snapshot| ==>
          snapshot[i].uuid in peers && snapshot[i].uuid !in pending && peers[snapshot[i].uuid] == snapshot[i]
        invariant forall u :: u in peers && u !in pending ==> peers[u] in snapshot
        invariant forall i, j :: 0 <= i < j < |snapshot| ==> snapshot[i].uuid != snapshot[j].uuid
        decreases pending
      {
        var u :| u in pending;
        snapshot := snapshot + [peers[u]];
        pending := pending - {u};
      }
    }

    /**
     * `_handle_active`: recomputes the active flag from a snapshot of the table, writing
     * it only when it changes. Afterwards the flag is the one the table calls for, so a
     * second call changes nothing.
     */
    method HandleActive()
      requires WellFormed()
      modifies this`active
      ensures active == ActiveFor(priority, peers)
    {
      var snapshot := Peers();
      SnapshotDecidesActive(priority, peers, snapshot);
      if DerivedActive(priority, snapshot) {
        if !active {
          active := true;
        }
      } else {
        if active {
          active := false;
        }
      }
    }

    /**
     * One pass of the receive loop for a datagram announcing `remoteUuid` with
     * `remotePriority`, received at `now`. The own announcement is ignored outright;
     * any other one inserts or replaces that uuid's record, leaves every other record as
     * it was, and re-derives the active flag.
     */
    method Receive(remoteUuid: string, remotePriority: int, now: int)
      requires Valid()
      modifies this`peers, this`active
      ensures Valid()
      ensures remoteUuid == uuid ==> peers == old(peers) && active == old(active)
      ensures remoteUuid != uuid ==> peers == old(peers)[remoteUuid := Peer(remoteUuid, remotePriority, now)]
    {
      if remoteUuid == uuid {
        return;
      }
      var peer := Peer(remoteUuid, remotePriority, now);
      peers := peers[remoteUuid := peer];
      HandleActive();
    }

    /**
     * One pass of the expire loop at `now`: every record last seen more than `StaleAge`
     * seconds before `now` is removed, every other record is kept unchanged, and the
     * active flag is re-derived.
     */
    method Expire(now: int)
      requires Valid()
      modifies this`peers, this`active
      ensures Valid()
      ensures forall u :: u in peers <==> u in old(peers) && !IsExpired(old(peers)[u], now)
      ensures forall u :: u in peers ==> peers[u] == old(peers)[u]
    {
      var lastSeenByUuid := map u | u in peers :: peers[u].lastSeen;
      var pending := lastSeenByUuid.Keys;
      while pending != {}
        invariant pending <= lastSeenByUuid.Keys == old(peers).Keys
        invariant forall u :: u in pending ==> u in peers
        invariant forall u :: u in peers ==> u in old(peers) && peers[u] == old(peers)[u]
        invariant forall u :: u in old(peers) && u !in pending ==> (u in peers <==> !IsExpired(old(peers)[u], now))
        decreases pending
      {
        var u :| u in pending;
        if lastSeenByUuid[u] < now - StaleAge {
          peers := peers - {u};
        }
        pending := pending - {u};
      }
      HandleActive();
    }
  }
}
