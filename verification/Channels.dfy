/**
  One channel per peer (crates/multiraft-net/src/grpc/router.rs, channel_for): check under the
  lock, connect outside it, check again before inserting, then count the link.
 */
module Channels {
  import opened Types

  /** A connection is known by the number of the dial that made it. */
  type Channel = nat

  datatype Task =
    | Calling(peer: NodeId)
    | Dialing(peer: NodeId)
    | Dialed(peer: NodeId, ch: Channel)
    | Recording(peer: NodeId, ch: Channel)
    | Answered(peer: NodeId, r: Option<Channel>)

  datatype Router = Router(channels: map<NodeId, Channel>, links: set<NodeId>, tasks: map<nat, Task>)

  const NewRouter := Router(map[], {}, map[])

  datatype Step =
    | Call(t: nat, peer: NodeId)
    | Check(t: nat)
    | Connect(t: nat, ch: Option<Channel>)
    | Publish(t: nat)
    | Record(t: nat)

  function Looked(channels: map<NodeId, Channel>, peers: set<NodeId>, peer: NodeId): Task {
    if peer in channels then Answered(peer, Some(channels[peer]))
    else if peer in peers then Dialing(peer)
    else Answered(peer, None)
  }

  ghost predicate Next(peers: set<NodeId>, s: Router, a: Step, s': Router) {
    match a
    case Call(t, peer) =>
      && t !in s.tasks
      && s' == s.(tasks := s.tasks[t := Calling(peer)])
    case Check(t) =>
      && t in s.tasks && s.tasks[t].Calling?
      && s' == s.(tasks := s.tasks[t := Looked(s.channels, peers, s.tasks[t].peer)])
    case Connect(t, ch) =>
      && t in s.tasks && s.tasks[t].Dialing?
      && var peer := s.tasks[t].peer;
      && s' == s.(tasks := s.tasks[t := if ch.Some? then Dialed(peer, ch.value) else Answered(peer, None)])
    case Publish(t) =>
      && t in s.tasks && s.tasks[t].Dialed?
      && var peer, ch := s.tasks[t].peer, s.tasks[t].ch;
      && s' == if peer in s.channels then s.(tasks := s.tasks[t := Answered(peer, Some(s.channels[peer]))])
               else s.(channels := s.channels[peer := ch], tasks := s.tasks[t := Recording(peer, ch)])
    case Record(t) =>
      && t in s.tasks && s.tasks[t].Recording?
      && s' == s.(links := s.links + {s.tasks[t].peer},
                  tasks := s.tasks[t := Answered(s.tasks[t].peer, Some(s.tasks[t].ch))])
  }

  ghost predicate TaskOk(peers: set<NodeId>, s: Router, k: Task) {
    match k
    case Calling(_) => true
    case Dialing(p) => p in peers
    case Dialed(p, _) => p in peers
    case Recording(p, ch) => p in s.channels && s.channels[p] == ch
    case Answered(p, r) => r.Some? ==> p in s.channels && s.channels[p] == r.value
  }

  /** Every channel is counted, or about to be by the task that made it. */
  ghost predicate Counted(s: Router, peer: NodeId) {
    peer in s.links || exists t :: t in s.tasks && s.tasks[t].Recording? && s.tasks[t].peer == peer
  }

  ghost predicate Inv(peers: set<NodeId>, s: Router) {
    && s.links <= s.channels.Keys <= peers
    && (forall t :: t in s.tasks ==> TaskOk(peers, s, s.tasks[t]))
    && (forall p :: p in s.channels ==> Counted(s, p))
  }

  lemma CountedLasts(peers: set<NodeId>, s: Router, a: Step, s': Router, p: NodeId)
    requires Inv(peers, s) && Next(peers, s, a, s') && p in s'.channels
    ensures Counted(s', p)
  {
    if p in s.channels {
      if p !in s'.links {
        var t :| t in s.tasks && s.tasks[t].Recording? && s.tasks[t].peer == p;
        assert t in s'.tasks && s'.tasks[t] == s.tasks[t];
      }
    } else {
      assert s'.tasks[a.t].Recording?;
    }
  }

  lemma StepKeepsInv(peers: set<NodeId>, s: Router, a: Step, s': Router)
    requires Inv(peers, s) && Next(peers, s, a, s')
    ensures Inv(peers, s')
  {
    forall p | p in s'.channels ensures Counted(s', p) {
      CountedLasts(peers, s, a, s', p);
    }
    forall t | t in s'.tasks ensures TaskOk(peers, s', s'.tasks[t]) {
      assert t in s.tasks ==> TaskOk(peers, s, s.tasks[t]);
    }
  }

  ghost predicate IsRun(peers: set<NodeId>, run: seq<Router>, steps: seq<Step>) {
    && |run| == |steps| + 1
    && run[0] == NewRouter
    && forall i :: 0 <= i < |steps| ==> Next(peers, run[i], steps[i], run[i + 1])
  }

  lemma {:induction false} RunKeepsInv(peers: set<NodeId>, run: seq<Router>, steps: seq<Step>, i: nat)
    requires IsRun(peers, run, steps) && i < |run|
    ensures Inv(peers, run[i])
  {
    if i > 0 {
      RunKeepsInv(peers, run, steps, i - 1);
      StepKeepsInv(peers, run[i - 1], steps[i - 1], run[i]);
    }
  }

  /** However many tasks race, all that got a channel to a peer got the same one. */
  lemma AnswersShareOneChannel(peers: set<NodeId>, run: seq<Router>, steps: seq<Step>, i: nat, t: nat, u: nat)
    requires IsRun(peers, run, steps) && i < |run| && t in run[i].tasks && u in run[i].tasks
    requires run[i].tasks[t].Answered? && run[i].tasks[u].Answered? && run[i].tasks[t].peer == run[i].tasks[u].peer
    requires run[i].tasks[t].r.Some? && run[i].tasks[u].r.Some?
    ensures run[i].tasks[t].r == run[i].tasks[u].r
  {
    RunKeepsInv(peers, run, steps, i);
    assert TaskOk(peers, run[i], run[i].tasks[t]) && TaskOk(peers, run[i], run[i].tasks[u]);
  }

  /** Links never outnumber peers, and once no task is between insert and count they are the channels. */
  lemma LinksCountPeers(peers: set<NodeId>, run: seq<Router>, steps: seq<Step>, i: nat)
    requires IsRun(peers, run, steps) && i < |run|
    ensures |run[i].links| <= |peers|
    ensures (forall t :: t in run[i].tasks ==> !run[i].tasks[t].Recording?) ==> run[i].links == run[i].channels.Keys
  {
    RunKeepsInv(peers, run, steps, i);
    assert peers == run[i].links + (peers - run[i].links);
    forall p | p in run[i].channels ensures Counted(run[i], p) {
    }
  }

  // ----- the critical sections -----

  /** The router, with the tasks in progress as ghosts; each method is one step of one task. */
  class GrpcRouter {
    const peers: set<NodeId>
    var channels: map<NodeId, Channel>
    var links: set<NodeId>
    ghost var tasks: map<nat, Task>

    ghost function State(): Router
      reads this
    {
      Router(channels, links, tasks)
    }

    constructor (peers: set<NodeId>)
      ensures this.peers == peers && State() == NewRouter
    {
      this.peers := peers;
      channels, links, tasks := map[], {}, map[];
    }

    /** The first lock region, and the lookup of the address after it. */
    method CheckCache(ghost t: nat, peer: NodeId) returns (next: Task)
      requires Inv(peers, State()) && t in tasks && tasks[t] == Calling(peer)
      modifies this`tasks
      ensures Next(peers, old(State()), Check(t), State()) && Inv(peers, State())
      ensures next == tasks[t] && next.peer == peer
      ensures next.Answered? && next.r.None? <==> peer !in peers
      ensures next.Dialing? <==> peer in peers && peer !in channels
    {
      ghost var before := State();
      if peer in channels {
        next := Answered(peer, Some(channels[peer]));
      } else if peer !in peers {
        next := Answered(peer, None);
      } else {
        next := Dialing(peer);
      }
      tasks := tasks[t := next];
      StepKeepsInv(peers, before, Check(t), State());
    }

    /**
      The second lock region. Whichever task was first, this one goes on with the channel that is
      cached now, and no cached channel is ever replaced.
     */
    method PublishChannel(ghost t: nat, peer: NodeId, ch: Channel) returns (next: Task)
      requires Inv(peers, State()) && t in tasks && tasks[t] == Dialed(peer, ch)
      modifies this`channels, this`tasks
      ensures Next(peers, old(State()), Publish(t), State()) && Inv(peers, State())
      ensures next == tasks[t] && peer in channels
      ensures next == Answered(peer, Some(channels[peer])) || next == Recording(peer, channels[peer])
      ensures forall p :: p in old(channels) ==> p in channels && channels[p] == old(channels)[p]
      ensures next.Recording? ==> peer !in links
    {
      ghost var before := State();
      if peer in channels {
        next := Answered(peer, Some(channels[peer]));
      } else {
        channels := channels[peer := ch];
        next := Recording(peer, ch);
      }
      tasks := tasks[t := next];
      StepKeepsInv(peers, before, Publish(t), State());
    }

    /** Counts the link of a channel that is cached, so the count stays within the peers. */
    method RecordPeer(ghost t: nat, peer: NodeId)
      requires Inv(peers, State()) && t in tasks && tasks[t].Recording? && tasks[t].peer == peer
      modifies this`links, this`tasks
      ensures Next(peers, old(State()), Record(t), State()) && Inv(peers, State())
      ensures tasks[t] == Answered(peer, Some(channels[peer]))
      ensures |links| <= |peers|
    {
      ghost var before := State();
      links := links + {peer};
      tasks := tasks[t := Answered(peer, Some(tasks[t].ch))];
      assert TaskOk(peers, before, before.tasks[t]);
      StepKeepsInv(peers, before, Record(t), State());
      assert peers == links + (peers - links);
    }
  }
}
