/**
 Several listeners that serve the same client and share a domain signal: their domain values go to one
 signal number, so the client keeps the last one that any of them sent.
 */
module SharedDomain {
  import opened Options
  import opened SignalListener

  datatype Sent = Sent(listener: nat, message: Message)

  /** What one of the listeners sent. */
  function Own(log: seq<Sent>, who: nat): seq<Message>
  {
    if log == [] then []
    else Own(log[..|log| - 1], who) + if log[|log| - 1].listener == who then [log[|log| - 1].message] else []
  }

  /** The last domain value that any of them sent. */
  function LastValue(log: seq<Sent>): Option<int>
  {
    if log == [] then None
    else if log[|log| - 1].message.DomainValue? then Some(log[|log| - 1].message.v)
    else LastValue(log[..|log| - 1])
  }

  /** The client's view of one signal: the shared value, and the samples of the signal itself. */
  function SharedView(log: seq<Sent>, who: nat): View
  {
    View(LastValue(log), Replay(Own(log, who)).samples)
  }

  predicate Stamped(s: Sent) { s.message.Data? && s.message.stamp.Some? }

  /** Whenever data arrived, the client knew the true time of its first sample. */
  ghost predicate SharedTimely(log: seq<Sent>)
  {
    forall i :: 0 <= i < |log| && Stamped(log[i]) ==>
      Expected(SharedView(log[..i], log[i].listener), log[i].message.stamp.value.delta) ==
          Some(log[i].message.stamp.value.time)
  }

  /** Whenever data arrived, the last domain value was one of its own listener. */
  ghost predicate OwnValueStands(log: seq<Sent>)
  {
    forall i :: 0 <= i < |log| && Stamped(log[i]) ==>
        LastValue(log[..i]) == Replay(Own(log[..i], log[i].listener)).domainValue
  }

  /** Each listener on its own serves the client rightly. */
  ghost predicate EachTimely(log: seq<Sent>)
  {
    forall who :: Timely(Own(log, who))
  }

  lemma {:induction false} OwnPrefix(log: seq<Sent>, i: nat, who: nat)
    requires i <= |log|
    ensures Own(log[..i], who) <= Own(log, who)
    ensures i < |log| && log[i].listener == who ==>
              |Own(log[..i], who)| < |Own(log, who)| && Own(log, who)[|Own(log[..i], who)|] == log[i].message
    decreases |log|
  {
    if i == |log| {
      assert log[..i] == log;
    } else {
      var front := log[..|log| - 1];
      assert front[..i] == log[..i];
      OwnPrefix(front, i, who);
    }
  }

  /** By its own values, a listener's data is always on time. */
  lemma OwnExpected(log: seq<Sent>, i: nat)
    requires EachTimely(log) && i < |log| && Stamped(log[i])
    ensures Expected(Replay(Own(log[..i], log[i].listener)), log[i].message.stamp.value.delta) ==
            Some(log[i].message.stamp.value.time)
  {
    hide Replay, Expected;
    var who := log[i].listener;
    OwnPrefix(log, i, who);
    var own := Own(log, who);
    var k := |Own(log[..i], who)|;
    assert own[..k] == Own(log[..i], who);
    assert Timely(own);
  }

  /** All views are right exactly if no listener's data came after another's domain value that differs from its own. */
  lemma SharedRight(log: seq<Sent>)
    requires EachTimely(log)
    ensures SharedTimely(log) <==> OwnValueStands(log)
  {
    hide Replay, Span, LastValue, Own, EachTimely;
    forall i | 0 <= i < |log| && Stamped(log[i])
      ensures Expected(SharedView(log[..i], log[i].listener), log[i].message.stamp.value.delta) ==
              Some(log[i].message.stamp.value.time) <==>
              LastValue(log[..i]) == Replay(Own(log[..i], log[i].listener)).domainValue
    {
      OwnExpected(log, i);
    }
  }

  /** One write: right in the shared view exactly if it brings its own domain value or that is still the last one. */
  lemma SharedWrite(e: Entry, last: Option<int>, timing: Stamp)
    ensures var f := AfterDomain(e, timing);
            var now := if f == e then last else f.domainValue;
            Expected(View(now, e.samples), timing.delta) == Some(timing.time) <==>
            Expected(View(e.domainValue, e.samples), timing.delta) != Some(timing.time) || last == e.domainValue
  {
    hide Span;
    var f := AfterDomain(e, timing);
    assert f != e ==> |f.log| == |e.log| + 1;
    assert Expected(View(e.domainValue, e.samples), timing.delta) != Some(timing.time) ==> f.log != e.log;
  }

  /** Listeners whose signals count from the same time never get in each other's way. */
  lemma SameOrigin(log: seq<Sent>, v: int)
    requires EachTimely(log) && forall i :: 0 <= i < |log| && log[i].message.DomainValue? ==> log[i].message.v == v
    ensures SharedTimely(log)
  {
    hide Replay, Own, EachTimely, LastValue, SharedTimely;
    forall i | 0 <= i < |log| && Stamped(log[i])
      ensures LastValue(log[..i]) == Replay(Own(log[..i], log[i].listener)).domainValue
    {
      OwnExpected(log, i);
      OnlyValue(log[..i], log[i].listener, v);
    }
    SharedRight(log);
  }

  lemma {:induction false} OnlyValue(log: seq<Sent>, who: nat, v: int)
    requires forall i :: 0 <= i < |log| && log[i].message.DomainValue? ==> log[i].message.v == v
    ensures LastValue(log) in {None, Some(v)} && Replay(Own(log, who)).domainValue in {None, Some(v)}
    ensures Replay(Own(log, who)).domainValue.Some? ==> LastValue(log).Some?
  {
    if log != [] {
      var front, s := log[..|log| - 1], log[|log| - 1];
      OnlyValue(front, who, v);
      ReplayAppend(Own(front, who), s.message);
      assert Own(front, who) + [] == Own(front, who);
    }
  }

  /** Two signals that count from different times: the second one's domain value misleads about the first. */
  lemma OtherOriginMisleads()
    ensures exists log :: EachTimely(log) && !SharedTimely(log)
  {
    hide Replay, Timely, Own, LastValue, EachTimely;
    var a, b: Message := DomainValue(0), Data(1, Some(Stamp(0, 1)));
    var c, d: Message := DomainValue(5), Data(1, Some(Stamp(1, 1)));
    var l1 := [] + [Sent(1, a)];
    var l2 := l1 + [Sent(1, b)];
    var l3 := l2 + [Sent(2, c)];
    var log := l3 + [Sent(1, d)];
    var (o1, o2) := ([] + [a], [] + [a] + [b]);
    NoMessages();
    ReplayAppend([], a);
    ReplayAppend(o1, b);
    TimelyAppend([], a);
    TimelyAppend(o1, b);
    TimelyAppend(o2, d);
    TimelyAppend([], c);
    forall who ensures Timely(Own(log, who)) {
      OwnAppend([], Sent(1, a), who);
      OwnAppend(l1, Sent(1, b), who);
      OwnAppend(l2, Sent(2, c), who);
      OwnAppend(l3, Sent(1, d), who);
    }
    assert EachTimely(log) by { AllTimely(log); }
    OwnAppend([], Sent(1, a), 1);
    OwnAppend(l1, Sent(1, b), 1);
    OwnAppend(l2, Sent(2, c), 1);
    assert log[..3] == l3 && Stamped(log[3]) && SharedView(l3, 1) == View(Some(5), 1);
  }

  lemma AllTimely(log: seq<Sent>)
    requires forall who :: Timely(Own(log, who))
    ensures EachTimely(log)
  {}

  lemma OwnAppend(log: seq<Sent>, s: Sent, who: nat)
    ensures s.listener == who ==> Own(log + [s], who) == Own(log, who) + [s.message]
    ensures s.listener != who ==> Own(log + [s], who) == Own(log, who)
    ensures LastValue(log + [s]) == if s.message.DomainValue? then Some(s.message.v) else LastValue(log)
  {
    assert (log + [s])[..|log|] == log;
    assert Own(log, who) + [] == Own(log, who);
  }

  lemma NoMessages()
    ensures Replay([]) == View(None, 0) && Timely([]) && forall who :: Own([], who) == []
  {}
}
