/**
  A client's increment with retries (crates/multiraft-demo/src/main.rs, group_inc) over the
  deduplicating counter.
 */
module Retries {
  import opened Types
  import opened Counter

  datatype Reply = Accepted(index: nat, term: nat) | NotLeader | Failed

  /** How one propose went: what the client heard, and whether the entry was committed by then. */
  datatype Attempt = Attempt(reply: Reply, committed: bool, term: nat) {
    /** An acknowledged write was committed; any other answer leaves it open, for later too. */
    predicate Honest() {
      reply.Accepted? ==> committed
    }
  }

  /**
    A local node: whether it thinks it leads, how a propose on it goes in either pass, and what is
    committed before each of them, earlier proposes of the same call included.
   */
  datatype Local = Local(leads: bool, first: Attempt, second: Attempt, before: seq<Entry>, between: seq<Entry>)

  datatype Outcome = Done(index: nat, term: nat) | Conflict | Unavailable

  ghost predicate Foreign(codec: Codec, es: seq<Entry>, key: U64) {
    forall c :: c in Cmds(codec, es) ==> c.idem != key
  }

  lemma {:induction false} CmdsConcat(codec: Codec, a: seq<Entry>, b: seq<Entry>)
    ensures Cmds(codec, a + b) == Cmds(codec, a) + Cmds(codec, b)
  {
    if b == [] {
      assert a + b == a;
    } else {
      CmdsConcat(codec, a, b[..|b| - 1]);
      assert (a + b)[..|a + b| - 1] == a + b[..|b| - 1];
    }
  }

  lemma {:induction false} WithoutConcat(a: seq<Cmd>, b: seq<Cmd>, key: U64)
    ensures Without(a + b, key) == Without(a, key) + Without(b, key)
  {
    if b == [] {
      assert a + b == a;
    } else {
      WithoutConcat(a, b[..|b| - 1], key);
      assert (a + b)[..|a + b| - 1] == a + b[..|b| - 1];
    }
  }

  lemma {:induction false} WithoutForeign(cs: seq<Cmd>, key: U64)
    requires forall c :: c in cs ==> c.idem != key
    ensures Without(cs, key) == cs
  {
    if cs != [] {
      WithoutForeign(cs[..|cs| - 1], key);
    }
  }

  /** The log differs from the one without the call only by copies of its one command. */
  ghost predicate OnlyCopies(codec: Codec, log: seq<Entry>, clean: seq<Entry>, cmd: Cmd) {
    && Without(Cmds(codec, log), cmd.idem) == Cmds(codec, clean)
    && forall c :: c in Cmds(codec, log) && c.idem == cmd.idem ==> c == cmd
  }

  /** Whatever here carries the call's key is a copy of its command, committed late. */
  ghost predicate CopiesAtMost(codec: Codec, es: seq<Entry>, cmd: Cmd) {
    forall c :: c in Cmds(codec, es) && c.idem == cmd.idem ==> c == cmd
  }

  /** The entries that do not carry the key. */
  ghost function Strip(codec: Codec, es: seq<Entry>, key: U64): seq<Entry> {
    if es == [] then []
    else
      var rest, e := Strip(codec, es[..|es| - 1], key), es[|es| - 1];
      if CmdOf(codec, e).Some? && CmdOf(codec, e).value.idem == key then rest else rest + [e]
  }

  lemma {:induction false} StripStrikesOut(codec: Codec, es: seq<Entry>, key: U64)
    ensures Cmds(codec, Strip(codec, es, key)) == Without(Cmds(codec, es), key)
  {
    if es != [] {
      var before, e := es[..|es| - 1], es[|es| - 1];
      StripStrikesOut(codec, before, key);
      var rest, cs := Strip(codec, before, key), Cmds(codec, before);
      assert (rest + [e])[..|rest + [e]| - 1] == rest;
      match CmdOf(codec, e) {
        case None =>
        case Some(c) => assert (cs + [c])[..|cs + [c]| - 1] == cs;
      }
    }
  }

  lemma OthersKeepCopies(codec: Codec, log: seq<Entry>, clean: seq<Entry>, es: seq<Entry>, cmd: Cmd)
    requires OnlyCopies(codec, log, clean, cmd) && CopiesAtMost(codec, es, cmd)
    ensures OnlyCopies(codec, log + es, clean + Strip(codec, es, cmd.idem), cmd)
  {
    CmdsConcat(codec, log, es);
    CmdsConcat(codec, clean, Strip(codec, es, cmd.idem));
    WithoutConcat(Cmds(codec, log), Cmds(codec, es), cmd.idem);
    StripStrikesOut(codec, es, cmd.idem);
  }

  lemma OneMoreCopy(codec: Codec, log: seq<Entry>, clean: seq<Entry>, e: Entry, cmd: Cmd)
    requires OnlyCopies(codec, log, clean, cmd) && CmdOf(codec, e) == Some(cmd)
    ensures OnlyCopies(codec, log + [e], clean, cmd) && cmd in Cmds(codec, log + [e])
  {
    assert (log + [e])[..|log + [e]| - 1] == log;
    var cs := Cmds(codec, log);
    assert (cs + [cmd])[..|cs + [cmd]| - 1] == cs;
  }

  /** One propose: what others and earlier proposes commit, then perhaps its own entry. */
  method Propose(codec: Codec, cmd: Cmd, log: seq<Entry>, others: seq<Entry>, a: Attempt, ghost clean: seq<Entry>)
    returns (after: seq<Entry>, ghost clean': seq<Entry>)
    requires codec.Lawful() && OnlyCopies(codec, log, clean, cmd) && CopiesAtMost(codec, others, cmd)
    ensures OnlyCopies(codec, after, clean', cmd) && clean <= clean' && log <= after
    ensures a.committed ==> cmd in Cmds(codec, after)
  {
    OthersKeepCopies(codec, log, clean, others, cmd);
    after := log + others;
    clean' := clean + Strip(codec, others, cmd.idem);
    if a.committed {
      var e := Entry(LogId(a.term, |after|), Normal(codec.encodeCmd(cmd)));
      assert CmdOf(codec, e) == Some(cmd);
      OneMoreCopy(codec, after, clean', e, cmd);
      after := after + [e];
    }
  }

  lemma UsedMeansCopied(cs: seq<Cmd>, cmd: Cmd)
    requires forall c :: c in cs && c.idem == cmd.idem ==> c == cmd
    ensures cmd.idem in Keys(cs) <==> cmd in cs
  {
    if cmd in cs {
      var i :| 0 <= i < |cs| && cs[i] == cmd;
      assert cs[i].idem in Keys(cs);
    }
  }

  lemma CopiesCountOnce(codec: Codec, log: seq<Entry>, clean: seq<Entry>, cmd: Cmd)
    requires OnlyCopies(codec, log, clean, cmd)
    ensures var base := Replay(codec, Empty, clean).value;
            Replay(codec, Empty, log).value == if cmd in Cmds(codec, log) then Wrap(base + cmd.delta) else base
  {
    RetriesCountOnce(codec, log, cmd.idem, cmd.delta);
    ReplayRunsCmds(codec, Empty, clean);
    UsedMeansCopied(Cmds(codec, log), cmd);
  }

  ghost predicate Harmless(codec: Codec, n: Local, cmd: Cmd) {
    && n.first.Honest() && n.second.Honest()
    && CopiesAtMost(codec, n.before, cmd) && CopiesAtMost(codec, n.between, cmd)
  }

  /** What the call would hear if it tried everyone: the leaders first, then every node. */
  function Replies(nodes: seq<Local>): seq<Reply> {
    LeaderReplies(nodes) + NodeReplies(nodes)
  }

  function LeaderReplies(nodes: seq<Local>): seq<Reply> {
    if nodes == [] then []
    else
      var n := nodes[|nodes| - 1];
      LeaderReplies(nodes[..|nodes| - 1]) + if n.leads then [n.first.reply] else []
  }

  function NodeReplies(nodes: seq<Local>): seq<Reply> {
    seq(|nodes|, i requires 0 <= i < |nodes| => nodes[i].second.reply)
  }

  /** Reply `p` is the first that is not "not leader". */
  predicate Settles(replies: seq<Reply>, p: nat) {
    p < |replies| && !replies[p].NotLeader? && forall q :: 0 <= q < p ==> replies[q].NotLeader?
  }

  /** The outcome is that of the settling reply, or "unavailable" exactly when there is none. */
  ghost predicate IsOutcome(replies: seq<Reply>, r: Outcome) {
    match r
    case Done(index, term) => exists p: nat :: Settles(replies, p) && replies[p] == Accepted(index, term)
    case Conflict => exists p: nat :: Settles(replies, p) && replies[p] == Failed
    case Unavailable => forall p :: 0 <= p < |replies| ==> replies[p].NotLeader?
  }

  ghost predicate AllNotLeader(replies: seq<Reply>) {
    forall p :: 0 <= p < |replies| ==> replies[p].NotLeader?
  }

  /** The leader replies up to a node begin the whole list of replies. */
  lemma {:induction false} LeaderRepliesBegin(nodes: seq<Local>, i: nat)
    requires i <= |nodes|
    ensures LeaderReplies(nodes[..i]) <= LeaderReplies(nodes)
    decreases |nodes|
  {
    if i < |nodes| {
      LeaderRepliesBegin(nodes[..|nodes| - 1], i);
      assert nodes[..|nodes| - 1][..i] == nodes[..i];
    } else {
      assert nodes[..i] == nodes;
    }
  }

  /** The `i`-th node, a leader, is next after leaders that all said "not leader". */
  lemma LeaderIsNext(nodes: seq<Local>, i: nat)
    requires i < |nodes| && nodes[i].leads && AllNotLeader(LeaderReplies(nodes[..i]))
    ensures var p := |LeaderReplies(nodes[..i])|;
            && p < |Replies(nodes)| && Replies(nodes)[p] == nodes[i].first.reply
            && (forall q :: 0 <= q < p ==> Replies(nodes)[q].NotLeader?)
  {
    LeaderRepliesBegin(nodes, i + 1);
    assert nodes[..i + 1][..i] == nodes[..i];
    var begin := LeaderReplies(nodes[..i + 1]);
    assert begin == LeaderReplies(nodes[..i]) + [nodes[i].first.reply];
    assert forall q :: 0 <= q < |begin| ==> Replies(nodes)[q] == begin[q];
  }

  lemma NodeIsNext(nodes: seq<Local>, i: nat)
    requires i < |nodes| && AllNotLeader(LeaderReplies(nodes)) && AllNotLeader(NodeReplies(nodes)[..i])
    ensures var p := |LeaderReplies(nodes)| + i;
            && p < |Replies(nodes)| && Replies(nodes)[p] == nodes[i].second.reply
            && (forall q :: 0 <= q < p ==> Replies(nodes)[q].NotLeader?)
  {
    var l := LeaderReplies(nodes);
    forall q | 0 <= q < |l| + i ensures Replies(nodes)[q].NotLeader? {
      assert Replies(nodes)[q] == if q < |l| then l[q] else NodeReplies(nodes)[..i][q - |l|];
    }
  }

  /** The log has grown by copies of the command and by what others committed, which `clean` holds. */
  ghost predicate Grew(codec: Codec, log: seq<Entry>, after: seq<Entry>, clean: seq<Entry>, cmd: Cmd) {
    OnlyCopies(codec, after, clean, cmd) && log <= clean && log <= after
  }

  /** A reply other than "not leader" settles the call. */
  function OutcomeOf(reply: Reply): Option<Outcome> {
    match reply
    case Accepted(index, term) => Some(Done(index, term))
    case Failed => Some(Conflict)
    case NotLeader => None
  }

  lemma SettlingReply(replies: seq<Reply>, p: nat)
    requires Settles(replies, p)
    ensures OutcomeOf(replies[p]).Some? && IsOutcome(replies, OutcomeOf(replies[p]).value)
  {
  }

  /** The nodes that think they lead, in turn. */
  method AskLeaders(codec: Codec, cmd: Cmd, log: seq<Entry>, nodes: seq<Local>)
    returns (r: Option<Outcome>, after: seq<Entry>, ghost clean: seq<Entry>)
    requires codec.Lawful() && OnlyCopies(codec, log, log, cmd)
    requires forall i :: 0 <= i < |nodes| ==> Harmless(codec, nodes[i], cmd)
    ensures Grew(codec, log, after, clean, cmd)
    ensures r.None? ==> AllNotLeader(LeaderReplies(nodes))
    ensures r.Some? ==> IsOutcome(Replies(nodes), r.value) && (r.value.Done? ==> cmd in Cmds(codec, after))
  {
    after, clean := log, log;
    for i := 0 to |nodes|
      invariant Grew(codec, log, after, clean, cmd)
      invariant AllNotLeader(LeaderReplies(nodes[..i]))
    {
      assert Harmless(codec, nodes[i], cmd);
      assert nodes[..i + 1][..i] == nodes[..i];
      if nodes[i].leads {
        LeaderIsNext(nodes, i);
        after, clean := Propose(codec, cmd, after, nodes[i].before, nodes[i].first, clean);
        r := OutcomeOf(nodes[i].first.reply);
        if r.Some? {
          SettlingReply(Replies(nodes), |LeaderReplies(nodes[..i])|);
          return;
        }
      }
    }
    assert nodes[..|nodes|] == nodes;
    r := None;
  }

  /** Then every node, in turn. */
  method AskEveryone(codec: Codec, cmd: Cmd, ghost log: seq<Entry>, sofar: seq<Entry>,
                     ghost cleared: seq<Entry>, nodes: seq<Local>)
    returns (r: Outcome, after: seq<Entry>, ghost clean: seq<Entry>)
    requires codec.Lawful() && Grew(codec, log, sofar, cleared, cmd) && AllNotLeader(LeaderReplies(nodes))
    requires forall i :: 0 <= i < |nodes| ==> Harmless(codec, nodes[i], cmd)
    ensures Grew(codec, log, after, clean, cmd)
    ensures IsOutcome(Replies(nodes), r) && (r.Done? ==> cmd in Cmds(codec, after))
  {
    after, clean := sofar, cleared;
    for i := 0 to |nodes|
      invariant Grew(codec, log, after, clean, cmd)
      invariant AllNotLeader(NodeReplies(nodes)[..i])
    {
      assert Harmless(codec, nodes[i], cmd);
      NodeIsNext(nodes, i);
      after, clean := Propose(codec, cmd, after, nodes[i].between, nodes[i].second, clean);
      var out := OutcomeOf(nodes[i].second.reply);
      if out.Some? {
        SettlingReply(Replies(nodes), |LeaderReplies(nodes)| + i);
        return out.value, after, clean;
      }
    }
    r := Unavailable;
    assert NodeReplies(nodes)[..|nodes|] == NodeReplies(nodes);
  }

  /** First the nodes that think they lead, then every node; any answer but "not leader" ends it. */
  method ProposeUntilSettled(codec: Codec, cmd: Cmd, log: seq<Entry>, nodes: seq<Local>)
    returns (r: Outcome, after: seq<Entry>, ghost clean: seq<Entry>)
    requires codec.Lawful() && OnlyCopies(codec, log, log, cmd)
    requires forall i :: 0 <= i < |nodes| ==> Harmless(codec, nodes[i], cmd)
    ensures OnlyCopies(codec, after, clean, cmd) && log <= clean && log <= after
    ensures r.Done? ==> cmd in Cmds(codec, after)
    ensures IsOutcome(Replies(nodes), r)
  {
    var led;
    led, after, clean := AskLeaders(codec, cmd, log, nodes);
    if led.Some? {
      return led.value, after, clean;
    }
    r, after, clean := AskEveryone(codec, cmd, log, after, clean, nodes);
  }

  /** The log's value: what it is without the call's key, plus the delta if the key is there. */
  ghost predicate CountsAtMostOnce(codec: Codec, log: seq<Entry>, cmd: Cmd) {
    var base := Run(Empty, Without(Cmds(codec, log), cmd.idem)).value;
    Replay(codec, Empty, log).value == if cmd in Cmds(codec, log) then Wrap(base + cmd.delta) else base
  }

  lemma LaterLogsCountOnce(codec: Codec, log: seq<Entry>, later: seq<Entry>, cmd: Cmd)
    requires log <= later && CopiesAtMost(codec, later, cmd)
    ensures CountsAtMostOnce(codec, later, cmd)
    ensures cmd in Cmds(codec, log) ==> cmd in Cmds(codec, later)
  {
    RetriesCountOnce(codec, later, cmd.idem, cmd.delta);
    UsedMeansCopied(Cmds(codec, later), cmd);
    assert later == log + later[|log|..];
    CmdsConcat(codec, log, later[|log|..]);
  }

  /**
    One increment with a fresh key. However many proposes it takes, and whenever those that were
    not acknowledged get committed, in every later log the counter is what the other clients alone
    would have produced, plus the delta at most once, and exactly once on success.
   */
  method GroupInc(codec: Codec, cmd: Cmd, log: seq<Entry>, nodes: seq<Local>)
    returns (r: Outcome, after: seq<Entry>, ghost clean: seq<Entry>)
    requires codec.Lawful() && Foreign(codec, log, cmd.idem)
    requires forall i :: 0 <= i < |nodes| ==> Harmless(codec, nodes[i], cmd)
    ensures IsOutcome(Replies(nodes), r)
    ensures log <= after && CopiesAtMost(codec, after, cmd)
    ensures forall later :: after <= later && CopiesAtMost(codec, later, cmd) ==>
              CountsAtMostOnce(codec, later, cmd) && (r.Done? ==> cmd in Cmds(codec, later))
    ensures log <= clean && Without(Cmds(codec, after), cmd.idem) == Cmds(codec, clean)
    ensures var base, end := Replay(codec, Empty, clean).value, Replay(codec, Empty, after).value;
            && (end == base || end == Wrap(base + cmd.delta))
            && (r.Done? ==> end == Wrap(base + cmd.delta))
  {
    WithoutForeign(Cmds(codec, log), cmd.idem);
    r, after, clean := ProposeUntilSettled(codec, cmd, log, nodes);
    CopiesCountOnce(codec, after, clean, cmd);
    forall later | after <= later && CopiesAtMost(codec, later, cmd)
      ensures CountsAtMostOnce(codec, later, cmd) && (r.Done? ==> cmd in Cmds(codec, later))
    {
      LaterLogsCountOnce(codec, after, later, cmd);
    }
  }
}
