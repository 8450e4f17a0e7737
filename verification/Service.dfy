/** The identifier service as runs of the system: the slave's application takes
    requests from the receive queue and transmits its responses, and the
    master's application takes those. */
module Service {
  import opened LinTypes
  import opened Bus
  import opened BusRuns
  import opened Slave

  /** What the slave has transmitted is the responses to the requests it took,
      as far as its transmit queue had room for them. */
  predicate Serves(id: Identity, st: SlaveState, n: Node, fits: seq<bool>) {
    |fits| == |n.log.popped| && n.log.accepted == Queued(id, st, n.log.popped, fits)
  }

  /** All the responses to requests, room or not. */
  function Answers(id: Identity, st: SlaveState, ms: seq<LinMessage>): seq<LinMessage> {
    Queued(id, st, ms, seq(|ms|, _ => true))
  }

  lemma AnswersStep(id: Identity, st: SlaveState, ms: seq<LinMessage>)
    requires ms != []
    ensures var n := |ms| - 1;
      Answers(id, st, ms) == Answers(id, st, ms[..n]) + OptSeq(Handle(id, StateAfter(id, st, ms[..n]), ms[n]).1)
  {
    assert seq(|ms|, _ => true)[..|ms| - 1] == seq(|ms| - 1, _ => true);
  }

  /** What was queued is some of the answers, and all if all had room. */
  lemma {:induction false} QueuedAnswers(id: Identity, st: SlaveState, ms: seq<LinMessage>, fits: seq<bool>)
    requires |fits| == |ms|
    ensures Subsequence(Queued(id, st, ms, fits), Answers(id, st, ms))
    ensures false !in fits ==> Queued(id, st, ms, fits) == Answers(id, st, ms)
  {
    if ms != [] {
      var n := |ms| - 1;
      var r := OptSeq(Handle(id, StateAfter(id, st, ms[..n]), ms[n]).1);
      QueuedAnswers(id, st, ms[..n], fits[..n]);
      AnswersStep(id, st, ms);
      SubsequenceRefl(r);
      assert Subsequence([], r);
      SubsequenceConcat(Queued(id, st, ms[..n], fits[..n]), Answers(id, st, ms[..n]), if fits[n] then r else [], r);
      assert fits[n] in fits && forall f :: f in fits[..n] ==> f in fits;
    }
  }

  /** The answers to the first requests are the first answers. */
  lemma {:induction false} AnswersPrefix(id: Identity, st: SlaveState, ms: seq<LinMessage>, n: nat)
    requires n <= |ms|
    ensures Answers(id, st, ms[..n]) <= Answers(id, st, ms)
  {
    if n == |ms| {
      assert ms[..n] == ms;
    } else {
      var init := ms[..|ms| - 1];
      AnswersPrefix(id, st, init, n);
      assert init[..n] == ms[..n];
      AnswersStep(id, st, ms);
    }
  }

  lemma PrefixSubsequence<T>(a: seq<T>, b: seq<T>)
    requires a <= b
    ensures Subsequence(a, b)
  {
    assert b == a + b[|a|..];
    SubsequenceRefl(b);
    SubsequencePrefix(a, b[|a|..], b);
  }

  /** Every response the master's application takes, in every run, answers a
      request the slave took, in request order and each at most once, from the
      address the slave then held; and as long as the slave's event queue
      dropped no first frame, the requests it took are ones the master's
      Transmit accepted, in that order. */
  lemma ResponsesInRuns(c: Setup, acts: seq<Action>, id: Identity, st: SlaveState, fits: seq<bool>) returns (from: seq<nat>)
    requires ValidSetup(c) && Serves(id, st, Run(c, acts).s, fits)
    ensures var taken, asked := Run(c, acts).m.log.popped, Run(c, acts).s.log.popped;
      && |from| == |taken| && Increasing(from, |asked|)
      && (forall k :: 0 <= k < |taken| ==> AnswersRequest(id, st, asked, from[k], taken[k]))
      && (!Run(c, acts).net.lostFirst ==> Subsequence(asked, Run(c, acts).m.log.accepted))
  {
    var taken, asked := Run(c, acts).m.log.popped, Run(c, acts).s.log.popped;
    Received(c, acts);
    var sent: seq<LinMessage> := Run(c, acts).s.log.accepted;
    assert sent[0..] == sent;
    var index := SubsequenceIndices(taken, sent, 0);
    var all := ResponsesMatchRequests(id, st, asked, fits);
    from := seq(|taken|, k requires 0 <= k < |taken| => all[index[k]]);
    forall k | 0 <= k < |taken| ensures AnswersRequest(id, st, asked, from[k], taken[k]) {
      assert taken[k] == Queued(id, st, asked, fits)[index[k]];
    }
  }

  /** Everything the slave was sent arrived at its application in order. */
  predicate AllAsked(b: System) { !b.net.lostRx && !b.s.log.expired && !b.s.log.overflow }

  /** The service in runs in which no request was lost: what the master's
      application takes is some of the answers to the requests the master's
      Transmit accepted, in order - and exactly the first ones if no response
      was lost either. */
  lemma ServiceRuns(c: Setup, acts: seq<Action>, id: Identity, st: SlaveState, fits: seq<bool>)
    requires ValidSetup(c) && Serves(id, st, Run(c, acts).s, fits) && AllAsked(Run(c, acts))
    ensures var b := Run(c, acts);
      && Subsequence(b.m.log.popped, Answers(id, st, b.m.log.accepted))
      && (false !in fits && !b.m.log.expired && !b.m.log.overflow ==> b.m.log.popped <= Answers(id, st, b.m.log.accepted))
  {
    var b := Run(c, acts);
    Received(c, acts);
    var asked, sent := b.s.log.popped, Queued(id, st, b.s.log.popped, fits);
    var requests: seq<LinMessage> := b.m.log.accepted;
    QueuedAnswers(id, st, asked, fits);
    assert asked == requests[..|asked|];
    AnswersPrefix(id, st, requests, |asked|);
    PrefixSubsequence(Answers(id, st, asked), Answers(id, st, requests));
    SubsequenceTrans(sent, Answers(id, st, asked), Answers(id, st, requests));
    TakenAnswers(b.m.log.popped, b.s.log.accepted, sent, Answers(id, st, requests));
  }

  lemma TakenAnswers(taken: seq<LinMessage>, accepted: seq<LinMessage>, sent: seq<LinMessage>, answers: seq<LinMessage>)
    requires Subsequence(taken, accepted) && accepted == sent && Subsequence(sent, answers)
    ensures Subsequence(taken, answers)
  {
    SubsequenceTrans(taken, sent, answers);
  }
}
