/**
 The websocket signal listener: domain values are sent only when a client could not work out the time
 of the next sample from what it has. A client's view is the replay of the messages it was sent.
 */
module SignalListener {
  import opened Options

  datatype Rule = NoRule | Linear(start: Option<int>, delta: Option<int>) | Explicit | OtherRule

  /** Descriptors and packets are immutable objects; the id stands for the identity of the object. */
  datatype Descriptor = Descriptor(id: nat, rule: Rule)

  datatype DomainPacket = DomainPacket(id: nat, descriptor: Option<Descriptor>, offset: int)

  datatype DataPacket = DataPacket(domain: Option<DomainPacket>, rule: Rule, hasRawData: bool, count: nat)

  // ---------- What a client sees ----------

  /** The true time of a first sample, and the step from sample to sample. */
  datatype Stamp = Stamp(time: int, delta: int)

  /** Messages to a client; data carries the stamp of its domain packet, if that has a complete linear rule. */
  datatype Message = SignalMetadata | DomainValue(v: int) | Data(count: nat, stamp: Option<Stamp>)

  /** The last domain value, which belongs to the sample at the last metadata, and the samples since. */
  datatype View = View(domainValue: Option<int>, samples: nat)

  function Replay(log: seq<Message>): View
  {
    if log == [] then View(None, 0)
    else
      var v := Replay(log[..|log| - 1]);
      match log[|log| - 1]
      case SignalMetadata => v.(samples := 0)
      case DomainValue(x) => v.(domainValue := Some(x))
      case Data(n, _) => v.(samples := v.samples + n)
  }

  /** The time that a number of samples takes. */
  function Span(samples: nat, delta: int): int { samples * delta }

  lemma SpanAdd(a: nat, b: nat, delta: int)
    ensures Span(a + b, delta) == Span(a, delta) + Span(b, delta)
  {}

  /** The time that the client works out for the next sample. */
  function Expected(v: View, delta: int): Option<int>
  {
    if v.domainValue.None? then None else Some(v.domainValue.value + Span(v.samples, delta))
  }

  /** A client takes the domain value for the time of the first sample, and delta more for each sample after it. */
  lemma ClientClock(x: int, n: nat, delta: int)
    ensures Expected(View(None, n), delta) == None && Expected(View(Some(x), 0), delta) == Some(x)
    ensures Expected(View(Some(x), n + 1), delta) == Some(Expected(View(Some(x), n), delta).value + delta)
  {
    SpanAdd(n, 1, delta);
  }

  /** Whenever data arrived, the client already knew the true time of its first sample. */
  ghost predicate Timely(log: seq<Message>)
  {
    forall i :: 0 <= i < |log| && log[i].Data? && log[i].stamp.Some? ==>
      Expected(Replay(log[..i]), log[i].stamp.value.delta) == Some(log[i].stamp.value.time)
  }

  // ---------- One subscribed client ----------

  datatype Entry = Entry(client: nat, domainValue: Option<int>, samples: nat, log: seq<Message>)

  ghost predicate ValidEntry(e: Entry)
  {
    Replay(e.log) == View(e.domainValue, e.samples) && Timely(e.log)
  }

  function NewEntry(client: nat): Entry { Entry(client, None, 0, [SignalMetadata]) }

  function AfterMetadata(e: Entry): Entry { e.(samples := 0, log := e.log + [SignalMetadata]) }

  /** A domain message if the time is not the one expected, then the data. */
  function AfterData(e: Entry, packet: DataPacket, timing: Option<Stamp>, stamp: Option<Stamp>): Entry
  {
    var f := if timing.Some? then AfterDomain(e, timing.value) else e;
    f.(samples := f.samples + packet.count, log := f.log + [Data(packet.count, stamp)])
  }

  function AfterDomain(e: Entry, timing: Stamp): Entry
  {
    if Expected(View(e.domainValue, e.samples), timing.delta) == Some(timing.time) then e
    else
      var v := timing.time - Span(e.samples, timing.delta);
      e.(domainValue := Some(v), log := e.log + [DomainValue(v)])
  }

  lemma ReplayAppend(log: seq<Message>, m: Message)
    ensures Replay(log + [m]) ==
              match m
              case SignalMetadata => Replay(log).(samples := 0)
              case DomainValue(x) => Replay(log).(domainValue := Some(x))
              case Data(n, _) => Replay(log).(samples := Replay(log).samples + n)
  {
    assert (log + [m])[..|log|] == log;
  }

  lemma TimelyAppend(log: seq<Message>, m: Message)
    requires Timely(log)
    requires m.Data? && m.stamp.Some? ==> Expected(Replay(log), m.stamp.value.delta) == Some(m.stamp.value.time)
    ensures Timely(log + [m])
  {
    hide Replay, Expected;
    var more := log + [m];
    forall i | 0 <= i < |more| && more[i].Data? && more[i].stamp.Some?
      ensures Expected(Replay(more[..i]), more[i].stamp.value.delta) == Some(more[i].stamp.value.time)
    {
      assert more[..i] == log[..i];
      assert i == |log| ==> log[..i] == log;
    }
  }

  lemma NewEntryValid(client: nat)
    ensures ValidEntry(NewEntry(client))
  {
    ReplayAppend([], SignalMetadata);
    TimelyAppend([], SignalMetadata);
    assert [] + [SignalMetadata] == [SignalMetadata];
  }

  lemma AfterMetadataValid(e: Entry)
    requires ValidEntry(e)
    ensures ValidEntry(AfterMetadata(e))
  {
    ReplayAppend(e.log, SignalMetadata);
    TimelyAppend(e.log, SignalMetadata);
  }

  lemma AfterDomainValid(e: Entry, timing: Stamp)
    requires ValidEntry(e)
    ensures ValidEntry(AfterDomain(e, timing))
    ensures Expected(Replay(AfterDomain(e, timing).log), timing.delta) == Some(timing.time)
  {
    hide Span, Replay, Timely;
    var v := timing.time - Span(e.samples, timing.delta);
    ReplayAppend(e.log, DomainValue(v));
    TimelyAppend(e.log, DomainValue(v));
  }

  /** The client's view stays exact, and is right whenever data is written. */
  lemma AfterDataValid(e: Entry, packet: DataPacket, timing: Option<Stamp>, stamp: Option<Stamp>)
    requires ValidEntry(e) && (stamp.Some? ==> stamp == timing)
    ensures ValidEntry(AfterData(e, packet, timing, stamp))
    ensures timing.Some? ==>
              var f := AfterData(e, packet, timing, stamp);
              Expected(View(f.domainValue, f.samples), timing.value.delta) ==
                  Some(timing.value.time + Span(packet.count, timing.value.delta))
  {
    hide Timely, Replay, Span;
    var f := if timing.Some? then AfterDomain(e, timing.value) else e;
    if timing.Some? {
      AfterDomainValid(e, timing.value);
      SpanAdd(f.samples, packet.count, timing.value.delta);
    }
    ReplayAppend(f.log, Data(packet.count, stamp));
    TimelyAppend(f.log, Data(packet.count, stamp));
  }

  /** A packet that follows without a gap costs no domain message. */
  lemma GapFreeIsSilent(e: Entry, first: DataPacket, next: DataPacket, timing: Stamp, stamp: Option<Stamp>)
    requires ValidEntry(e) && (stamp.Some? ==> stamp == Some(timing))
    ensures var f := AfterData(e, first, Some(timing), stamp);
            var follow := Stamp(timing.time + Span(first.count, timing.delta), timing.delta);
            AfterData(f, next, Some(follow), Some(follow)) ==
                f.(samples := f.samples + next.count, log := f.log + [Data(next.count, Some(follow))])
  {
    hide Timely, Replay, Span;
    AfterDataValid(e, first, Some(timing), stamp);
  }

  // ---------- The rule of the domain packet ----------

  /** start and delta are both given. The constructor of data rules refuses any other linear rule. */
  predicate Complete(r: Rule) { r.Linear? && r.start.Some? && r.delta.Some? }

  /** last_packet, last_descriptor, linear_start and linear_delta */
  datatype Cache = Cache(lastPacket: Option<DomainPacket>, lastDescriptor: Option<Descriptor>, start: int, delta: int)

  const NO_CACHE := Cache(None, None, 0, 1)

  /** What is cached belongs to the descriptor it was read from. */
  ghost predicate ValidCache(c: Cache)
  {
    && (c.lastPacket.Some? ==> c.lastPacket.value.descriptor == c.lastDescriptor)
    && (c.lastDescriptor.Some? && c.lastDescriptor.value.rule.Linear? ==>
          var r := c.lastDescriptor.value.rule;
          (r.start.Some? ==> c.start == r.start.value) && (r.delta.Some? ==> c.delta == r.delta.value))
  }

  /** checkDomainPacket */
  function Checked(c: Cache, packet: DomainPacket): Cache
  {
    if c.lastPacket == Some(packet) then c
    else if c.lastDescriptor == packet.descriptor then c.(lastPacket := Some(packet))
    else
      var d := c.(lastPacket := Some(packet), lastDescriptor := packet.descriptor);
      if packet.descriptor.None? || !packet.descriptor.value.rule.Linear? then d
      else
        var r := packet.descriptor.value.rule;
        d.(start := if r.start.Some? then r.start.value else d.start, delta := if r.delta.Some? then r.delta.value
            else d.delta)
  }

  /** The cache gives the packet's own parameters as far as its rule has them. */
  lemma CheckedIsOwn(c: Cache, packet: DomainPacket)
    requires ValidCache(c) && packet.descriptor.Some? && packet.descriptor.value.rule.Linear?
    ensures ValidCache(Checked(c, packet)) && Checked(Checked(c, packet), packet) == Checked(c, packet)
    ensures var r := packet.descriptor.value.rule;
            (r.start.Some? ==> Checked(c, packet).start == r.start.value)
                && (r.delta.Some? ==> Checked(c, packet).delta == r.delta.value)
  {}

  /** The packet's times are derived from a linear domain rule. */
  predicate Timed(p: DataPacket, linked: bool)
  {
    p.domain.Some? && linked && p.domain.value.descriptor.Some? && p.domain.value.descriptor.value.rule.Linear?
        && p.rule.Explicit?
  }

  /** What the listener takes for the packet's times. */
  function Timing(c: Cache, p: DataPacket, linked: bool): Option<Stamp>
  {
    if Timed(p, linked)
        then Some(Stamp(Checked(c, p.domain.value).start + p.domain.value.offset, Checked(c, p.domain.value).delta))
        else None
  }

  /** The packet's true times, by its own rule. */
  function TrueStamp(p: DataPacket, linked: bool): Option<Stamp>
  {
    if Timed(p, linked) && Complete(p.domain.value.descriptor.value.rule) then
      var r := p.domain.value.descriptor.value.rule;
      Some(Stamp(r.start.value + p.domain.value.offset, r.delta.value))
    else None
  }

  lemma TimingIsTrue(c: Cache, p: DataPacket, linked: bool)
    requires ValidCache(c)
    ensures TrueStamp(p, linked).Some? ==> Timing(c, p, linked) == TrueStamp(p, linked)
  {
    if Timed(p, linked) { CheckedIsOwn(c, p.domain.value); }
  }

  /** The times taken for a timed packet do not depend on what came before exactly if its rule is complete. */
  lemma CompleteIsIndependent(p: DataPacket, linked: bool)
    requires Timed(p, linked)
    ensures Complete(p.domain.value.descriptor.value.rule) <==>
            forall c1, c2 :: ValidCache(c1) && ValidCache(c2) ==> Timing(c1, p, linked) == Timing(c2, p, linked)
  {
    var r := p.domain.value.descriptor.value.rule;
    if Complete(r) {
      forall c1, c2 | ValidCache(c1) && ValidCache(c2) ensures Timing(c1, p, linked) == Timing(c2, p, linked) {
        TimingIsTrue(c1, p, linked);
        TimingIsTrue(c2, p, linked);
      }
    } else {
      var (c1, c2) := (Cache(None, None, 0, 0), Cache(None, None, 1, 1));
      assert ValidCache(c1) && ValidCache(c2) && Timing(c1, p, linked) != Timing(c2, p, linked);
    }
  }

  // ---------- The listener ----------

  /** The clients whose sockets still work, with their entries after the packet. */
  function Survivors(clients: seq<Entry>, failing: set<nat>, f: Entry -> Entry): seq<Entry>
  {
    if clients == [] then []
    else
      var last := clients[|clients| - 1];
      Survivors(clients[..|clients| - 1], failing, f) + if last.client in failing then [] else [f(last)]
  }

  lemma {:induction false} SurvivorsValid(clients: seq<Entry>, failing: set<nat>, f: Entry -> Entry)
    requires forall i :: 0 <= i < |clients| ==> ValidEntry(clients[i]) && ValidEntry(f(clients[i]))
    ensures forall i :: 0 <= i < |Survivors(clients, failing, f)| ==> ValidEntry(Survivors(clients, failing, f)[i])
  {
    hide ValidEntry;
    if clients != [] {
      SurvivorsValid(clients[..|clients| - 1], failing, f);
    }
  }

  /** idx lists, in order, exactly the entries before whose client does not fail; one entry is left for each. */
  ghost predicate KeptInOrder(before: seq<Entry>, failing: set<nat>, after: seq<Entry>, idx: seq<nat>)
  {
    && |idx| == |after|
    && (forall k :: 0 <= k < |idx| ==> idx[k] < |before|)
    && (forall j, k :: 0 <= j < k < |idx| ==> idx[j] < idx[k])
    && (forall i: nat :: i < |before| ==> (i in idx <==> before[i].client !in failing))
  }

  /**
   What data does to one client: its count grows, and the data is the last message, after at most one domain
   value.
   */
  ghost predicate Served(e: Entry, f: Entry, p: DataPacket, linked: bool)
  {
    && f.client == e.client && f.samples == e.samples + p.count
    && |e.log| < |f.log| && f.log[..|e.log|] == e.log
    && (f.log[|e.log|..] == [Data(p.count, TrueStamp(p, linked))] ||
        exists v :: f.log[|e.log|..] == [DomainValue(v), Data(p.count, TrueStamp(p, linked))]
            && f.domainValue == Some(v))
    && (TrueStamp(p, linked).Some? ==>
          var t := TrueStamp(p, linked).value;
          && Expected(View(f.domainValue, f.samples), t.delta) == Some(t.time + Span(p.count, t.delta))
          && (|f.log| == |e.log| + 1 <==> Expected(View(e.domainValue, e.samples), t.delta) == Some(t.time)))
    && (!Timed(p, linked) ==> |f.log| == |e.log| + 1 && f.domainValue == e.domainValue)
  }

  lemma AfterDataServes(e: Entry, p: DataPacket, linked: bool, timing: Option<Stamp>)
    requires timing.Some? <==> Timed(p, linked)
    requires ValidEntry(e) && (TrueStamp(p, linked).Some? ==> TrueStamp(p, linked) == timing)
    ensures Served(e, AfterData(e, p, timing, TrueStamp(p, linked)), p, linked)
  {
    hide Span, Replay, ValidEntry, Timed;
    var stamp := TrueStamp(p, linked);
    var f := AfterData(e, p, timing, stamp);
    AfterDataValid(e, p, timing, stamp);
    assert f.log == e.log + f.log[|e.log|..];
  }

  /**
   The true times of a packet with a linear domain rule are its start and offset, and its delta; no other
   packet has any.
   */
  lemma TrueTimes(p: DataPacket, linked: bool)
    ensures forall i, d, start, delta, offset ::
              p.domain == Some(DomainPacket(i, Some(Descriptor(d, Linear(Some(start), Some(delta)))), offset))
                  && p.rule == Explicit && linked ==>
              TrueStamp(p, linked) == Some(Stamp(start + offset, delta))
    ensures TrueStamp(p, linked).Some? ==>
            linked && p.rule == Explicit && p.domain.Some? && p.domain.value.descriptor.Some?
  {}

  lemma {:induction false} SurvivorsKept(clients: seq<Entry>, failing: set<nat>, f: Entry -> Entry)
      returns (idx: seq<nat>)
    ensures KeptInOrder(clients, failing, Survivors(clients, failing, f), idx)
            && |idx| == |Survivors(clients, failing, f)|
    ensures forall k :: 0 <= k < |idx| ==>
              idx[k] < |clients| && Survivors(clients, failing, f)[k] == f(clients[idx[k]])
  {
    hide KeptInOrder, Survivors, Append;
    SurvivorsStep(clients, failing, f);
    if clients == [] {
      idx := [];
      KeptNone(failing);
    } else {
      var n := |clients| - 1;
      var rest := Survivors(clients[..n], failing, f);
      idx := SurvivorsKept(clients[..n], failing, f);
      KeptFront(clients, failing, rest, idx);
      if clients[n].client !in failing {
        KeptLast(clients, failing, rest, idx, f(clients[n]));
        AppendAt(idx, n);
        idx := Append(idx, n);
      }
    }
  }

  lemma SurvivorsStep(clients: seq<Entry>, failing: set<nat>, f: Entry -> Entry)
    ensures clients == [] ==> Survivors(clients, failing, f) == []
    ensures clients != [] ==>
              var n := |clients| - 1;
              Survivors(clients, failing, f) ==
              if clients[n].client in failing then Survivors(clients[..n], failing, f)
              else Survivors(clients[..n], failing, f) + [f(clients[n])]
  {
    if clients != [] {
      var rest := Survivors(clients[..|clients| - 1], failing, f);
      assert rest + [] == rest;
    }
  }

  function Append(idx: seq<nat>, n: nat): seq<nat> { idx + [n] }

  lemma AppendAt(idx: seq<nat>, n: nat)
    ensures |Append(idx, n)| == |idx| + 1 && Append(idx, n)[|idx|] == n
    ensures forall k :: 0 <= k < |idx| ==> Append(idx, n)[k] == idx[k]
  {}

  lemma KeptNone(failing: set<nat>)
    ensures KeptInOrder([], failing, [], [])
  {}

  lemma KeptFront(clients: seq<Entry>, failing: set<nat>, after: seq<Entry>, idx: seq<nat>)
    requires clients != [] && KeptInOrder(clients[..|clients| - 1], failing, after, idx)
    ensures forall k :: 0 <= k < |idx| ==> idx[k] < |clients| - 1
    ensures clients[|clients| - 1].client in failing ==> KeptInOrder(clients, failing, after, idx)
  {
    var n := |clients| - 1;
    assert n !in idx;
    assert forall i: nat :: i < n ==> clients[..n][i] == clients[i];
  }

  lemma KeptLast(clients: seq<Entry>, failing: set<nat>, after: seq<Entry>, idx: seq<nat>, e: Entry)
    requires clients != [] && KeptInOrder(clients[..|clients| - 1], failing, after, idx)
    requires clients[|clients| - 1].client !in failing
    ensures KeptInOrder(clients, failing, after + [e], Append(idx, |clients| - 1))
  {
    var n := |clients| - 1;
    forall i: nat | i < |clients| ensures i in Append(idx, n) <==> clients[i].client !in failing {
      if i < n {
        assert clients[..n][i] == clients[i];
      }
    }
  }

  /** Everyone whose client does not fail is served, in order, and nobody else is left. */
  lemma AllServed(clients: seq<Entry>, failing: set<nat>, p: DataPacket, linked: bool, timing: Option<Stamp>)
      returns (idx: seq<nat>)
    requires timing.Some? <==> Timed(p, linked)
    requires forall i :: 0 <= i < |clients| ==> ValidEntry(clients[i])
    requires TrueStamp(p, linked).Some? ==> TrueStamp(p, linked) == timing
    ensures var after := Survivors(clients, failing, e => AfterData(e, p, timing, TrueStamp(p, linked)));
            && KeptInOrder(clients, failing, after, idx)
            && (forall k :: 0 <= k < |idx| ==>
                idx[k] < |clients| && k < |after| && Served(clients[idx[k]], after[k], p, linked))
            && (forall k :: 0 <= k < |after| ==> after[k].client !in failing)
  {
    hide KeptInOrder, Served, AfterData, ValidEntry, Timed, TrueStamp;
    var f := e => AfterData(e, p, timing, TrueStamp(p, linked));
    idx := SurvivorsKept(clients, failing, f);
    IndicesBelow(clients, failing, Survivors(clients, failing, f), idx);
    forall k | 0 <= k < |idx|
      ensures Served(clients[idx[k]], Survivors(clients, failing, f)[k], p, linked)
      ensures Survivors(clients, failing, f)[k].client == clients[idx[k]].client
    {
      AfterDataServes(clients[idx[k]], p, linked, timing);
      ServedSame(clients[idx[k]], Survivors(clients, failing, f)[k], p, linked);
    }
  }

  lemma ServedSame(e: Entry, f: Entry, p: DataPacket, linked: bool)
    requires Served(e, f, p, linked)
    ensures f.client == e.client
  {}

  lemma IndicesBelow(before: seq<Entry>, failing: set<nat>, after: seq<Entry>, idx: seq<nat>)
    requires KeptInOrder(before, failing, after, idx)
    ensures |idx| == |after| && forall k :: 0 <= k < |idx| ==> idx[k] < |before| && before[idx[k]].client !in failing
  {
    forall k | 0 <= k < |idx| ensures before[idx[k]].client !in failing {
      assert idx[k] in idx;
    }
  }

  class Listener {
    var clients: seq<Entry>
    var lastPacket: Option<DomainPacket>
    var lastDescriptor: Option<Descriptor>
    var linearStart: int
    var linearDelta: int
    const linked: bool

    ghost function Cached(): Cache
      reads this
    {
      Cache(lastPacket, lastDescriptor, linearStart, linearDelta)
    }

    ghost predicate Valid()
      reads this
    {
      ValidCache(Cached()) && forall i :: 0 <= i < |clients| ==> ValidEntry(clients[i])
    }

    constructor (hasDomainListener: bool)
      ensures Valid() && clients == [] && linked == hasDomainListener && Cached() == NO_CACHE
    {
      clients, lastPacket, lastDescriptor, linearStart, linearDelta := [], None, None, 0, 1;
      linked := hasDomainListener;
    }

    method CheckDomainPacket(packet: DomainPacket) returns (start: int, delta: int)
      modifies this`lastPacket, this`lastDescriptor, this`linearStart, this`linearDelta
      ensures Cached() == Checked(old(Cached()), packet) && start == linearStart && delta == linearDelta
    {
      if lastPacket != Some(packet) {
        lastPacket := Some(packet);
        if lastDescriptor != packet.descriptor {
          lastDescriptor := packet.descriptor;
          if packet.descriptor.Some? && packet.descriptor.value.rule.Linear? {
            var r := packet.descriptor.value.rule;
            if r.start.Some? { linearStart := r.start.value; }
            if r.delta.Some? { linearDelta := r.delta.value; }
          }
        }
      }
      return linearStart, linearDelta;
    }

    /** One client's turn in packetReceived. */
    method WriteTo(e: Entry, p: DataPacket) returns (f: Entry)
      requires ValidCache(Cached())
      modifies this`lastPacket, this`lastDescriptor, this`linearStart, this`linearDelta
      ensures f == AfterData(e, p, Timing(old(Cached()), p, linked), TrueStamp(p, linked))
      ensures Cached() == if Timed(p, linked) then Checked(old(Cached()), p.domain.value) else old(Cached())
    {
      hide Span;
      f := e;
      if Timed(p, linked) {
        var start, delta := CheckDomainPacket(p.domain.value);
        var offset := p.domain.value.offset;
        if f.domainValue.None? || f.domainValue.value + Span(f.samples, delta) != start + offset {
          var v := start + offset - Span(f.samples, delta);
          f := f.(domainValue := Some(v), log := f.log + [DomainValue(v)]);
        }
      }
      f := f.(log := f.log + [Data(p.count, TrueStamp(p, linked))]);
      f := f.(samples := f.samples + p.count);
    }

    /** packetReceived for a data packet; clients that are gone or cannot be written to are dropped. */
    method DataReceived(p: DataPacket, failing: set<nat>)
      requires Valid()
      modifies this
      ensures Valid()
      ensures !p.hasRawData ==> clients == old(clients)
      ensures p.hasRawData ==>
                exists idx :: KeptInOrder(old(clients), failing, clients, idx) &&
                  forall k :: 0 <= k < |idx| ==> Served(old(clients)[idx[k]], clients[k], p, linked)
      ensures p.hasRawData ==> forall k :: 0 <= k < |clients| ==> clients[k].client !in failing
    {
      hide ValidEntry, AfterData, Checked, Served, KeptInOrder, TrueStamp;
      if !p.hasRawData {
        return;
      }
      ghost var cache := Cached();
      ghost var f := e => AfterData(e, p, Timing(cache, p, linked), TrueStamp(p, linked));
      var before := clients;
      var kept: seq<Entry> := [];
      for i := 0 to |before|
        invariant kept == Survivors(before[..i], failing, f) && ValidCache(Cached())
        invariant Cached() == cache || (Timed(p, linked) && Cached() == Checked(cache, p.domain.value))
      {
        if Timed(p, linked) { CheckedIsOwn(cache, p.domain.value); }
        assert before[..i + 1][..i] == before[..i];
        if before[i].client !in failing {
          var e := WriteTo(before[i], p);
          kept := kept + [e];
        }
      }
      assert before[..|before|] == before;
      clients := kept;
      TimingIsTrue(cache, p, linked);
      forall i | 0 <= i < |before| ensures ValidEntry(f(before[i])) {
        AfterDataValid(before[i], p, Timing(cache, p, linked), TrueStamp(p, linked));
      }
      SurvivorsValid(before, failing, f);
      ghost var idx := AllServed(before, failing, p, linked, Timing(cache, p, linked));
    }

    /** packetReceived for DATA_DESCRIPTOR_CHANGED: new metadata, and counting starts again. */
    method DescriptorChanged(failing: set<nat>)
      requires Valid()
      modifies this`clients
      ensures Valid()
      ensures exists idx :: KeptInOrder(old(clients), failing, clients, idx) &&
                forall k :: 0 <= k < |idx| ==>
                  var e := old(clients)[idx[k]];
                  clients[k] == e.(samples := 0, log := e.log + [SignalMetadata])
      ensures forall k :: 0 <= k < |clients| ==> clients[k].client !in failing
    {
      hide ValidEntry, KeptInOrder;
      ghost var f := e => AfterMetadata(e);
      var before := clients;
      var kept: seq<Entry> := [];
      for i := 0 to |before|
        invariant kept == Survivors(before[..i], failing, f) && clients == before
      {
        assert before[..i + 1][..i] == before[..i];
        if before[i].client !in failing {
          kept := kept + [AfterMetadata(before[i])];
        }
      }
      assert before[..|before|] == before;
      clients := kept;
      forall i | 0 <= i < |before| ensures ValidEntry(f(before[i])) {
        AfterMetadataValid(before[i]);
      }
      SurvivorsValid(before, failing, f);
      ghost var idx := SurvivorsKept(before, failing, f);
      IndicesBelow(before, failing, clients, idx);
    }

    /** addClient: a client already there stays as it is; a new one starts with metadata and no domain value. */
    method AddClient(client: nat, reachable: bool) returns (ok: bool)
      requires Valid()
      modifies this`clients
      ensures Valid()
      ensures var known := exists i :: 0 <= i < |old(clients)| && old(clients)[i].client == client;
              ok == (known || reachable) &&
              clients == if known || !reachable then old(clients)
                         else old(clients) + [Entry(client, None, 0, [SignalMetadata])]
    {
      hide ValidEntry;
      var i := 0;
      while i < |clients| && clients[i].client != client
        invariant i <= |clients| && clients == old(clients)
        invariant forall k :: 0 <= k < i ==> clients[k].client != client
      {
        i := i + 1;
      }
      if i < |clients| {
        return true;
      }
      if !reachable {
        return false;
      }
      NewEntryValid(client);
      clients := clients + [NewEntry(client)];
      return true;
    }
  }
}
