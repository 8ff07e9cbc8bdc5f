/**
 The read thread of the native streaming server: it empties the queues of all signal readers through
 one fixed buffer, in as many passes as that takes. Nothing is enqueued while the readers are locked.
 */
module StreamingReader {

  type Packet(==, 0)

  /** PacketBufferData: a slice of the buffer, or (-1, -1) for none. */
  datatype Slice = Slice(index: int, count: int)

  const NO_SLICE := Slice(-1, -1)

  function Min(a: nat, b: nat): nat { if a < b then a else b }

  // ---------- A connection's queue ----------

  class Connection {
    var packets: seq<Packet>

    constructor ()
      ensures packets == []
    {
      packets := [];
    }

    method Enqueue(p: Packet)
      modifies this
      ensures packets == old(packets) + [p]
    {
      packets := packets + [p];
    }

    /** dequeueUpTo: as many as there are and fit, from the front. */
    method DequeueUpTo(buf: array<Packet>, at: nat, capacity: nat) returns (count: nat)
      requires at + capacity <= buf.Length
      modifies this, buf
      ensures count == Min(capacity, |old(packets)|)
      ensures buf[at..at + count] == old(packets)[..count] && packets == old(packets)[count..]
      ensures forall k :: 0 <= k < buf.Length && !(at <= k < at + count) ==> buf[k] == old(buf[k])
    {
      count := Min(capacity, |packets|);
      for i := 0 to count
        invariant packets == old(packets)[i..]
        invariant buf[at..at + i] == old(packets)[..i]
        invariant forall k :: 0 <= k < buf.Length && !(at <= k < at + i) ==> buf[k] == old(buf[k])
      {
        buf[at + i] := packets[0];
        packets := packets[1..];
        assert buf[at..at + i + 1] == buf[at..at + i] + [buf[at + i]];
      }
    }
  }

  // ---------- The streaming manager ----------

  /** The packets of a slice; none when the slice was not filled. */
  function Sliced(buf: seq<Packet>, d: Slice): seq<Packet>
  {
    if 0 <= d.index && 0 <= d.count && d.index + d.count <= |buf| then buf[d.index..d.index + d.count] else []
  }

  /** The slice lies in the buffer or is unfilled. */
  predicate InBuffer(d: Slice, size: nat)
  {
    d == NO_SLICE || (0 <= d.index && 0 <= d.count && d.index + d.count <= size)
  }

  class StreamingManager {
    /** For each registered signal the packets passed on, in order. */
    var processed: map<string, seq<Packet>>

    constructor (ids: set<string>)
      ensures processed.Keys == ids && forall id :: id in ids ==> processed[id] == []
    {
      processed := map id | id in ids :: [];
    }

    /** The packets of one slice, front to back. */
    method PassSlice(id: string, d: Slice, packets: array<Packet>)
      requires id in processed && InBuffer(d, packets.Length)
      modifies this
      ensures processed == old(processed)[id := old(processed)[id] + Sliced(packets[..], d)]
    {
      ghost var base := processed[id];
      var i := d.index;
      while i < d.index + d.count
        invariant d != NO_SLICE ==> d.index <= i <= d.index + d.count
        invariant d == NO_SLICE ==> i == -1
        invariant processed.Keys == old(processed).Keys
        invariant forall other :: other in processed && other != id ==> processed[other] == old(processed)[other]
        invariant processed[id] == base + if d == NO_SLICE then [] else packets[d.index..i]
      {
        assert packets[d.index..i + 1] == packets[d.index..i] + [packets[i]];
        processed := processed[id := processed[id] + [packets[i]]];
        i := i + 1;
      }
      assert d != NO_SLICE ==> packets[d.index..d.index + d.count] == packets[..][d.index..d.index + d.count];
    }

    /** processPackets: signal by signal in the order of the index map, each slice front to back. */
    method ProcessPackets(packetIndices: map<string, Slice>, packets: array<Packet>)
      requires packetIndices.Keys <= processed.Keys
      requires forall id :: id in packetIndices ==> InBuffer(packetIndices[id], packets.Length)
      modifies this
      ensures processed.Keys == old(processed).Keys
      ensures forall id :: id in processed ==>
                processed[id] == old(processed)[id]
                    + if id in packetIndices then Sliced(packets[..], packetIndices[id]) else []
    {
      var todo := packetIndices.Keys;
      while todo != {}
        invariant todo <= packetIndices.Keys && processed.Keys == old(processed).Keys
        invariant forall id :: id in processed ==>
                    processed[id] == old(processed)[id] + if id in packetIndices
                        && id !in todo then Sliced(packets[..], packetIndices[id]) else []
      {
        var id :| id in todo;
        PassSlice(id, packetIndices[id], packets);
        todo := todo - {id};
      }
    }
  }

  // ---------- The server ----------

  datatype Reader = Reader(signal: int, globalId: string, connection: Connection)

  /** Queues given by value: what is queued for each reader in turn. */
  ghost function Total(queues: seq<seq<Packet>>): nat
  {
    if queues == [] then 0 else |queues[0]| + Total(queues[1..])
  }

  lemma {:induction false} TotalUpdate(queues: seq<seq<Packet>>, i: nat, n: nat)
    requires i < |queues| && n <= |queues[i]|
    ensures Total(queues[i := queues[i][n..]]) + n == Total(queues)
  {
    if i > 0 {
      assert queues[i := queues[i][n..]][1..] == queues[1..][i - 1 := queues[1..][i - 1][n..]];
      TotalUpdate(queues[1..], i - 1, n);
    }
  }

  ghost predicate Distinct(readers: seq<Reader>)
  {
    forall i, j :: 0 <= i < j < |readers| ==>
      readers[i].signal != readers[j].signal && readers[i].globalId != readers[j].globalId
          && readers[i].connection != readers[j].connection
  }

  ghost function Append(counts: seq<nat>, n: nat): seq<nat> { counts + [n] }

  /** Where the k-th slice starts when the earlier readers gave that many packets. */
  ghost function Offset(counts: seq<nat>, k: nat): nat
    requires k <= |counts|
  {
    if k == 0 then 0 else Offset(counts, k - 1) + counts[k - 1]
  }

  lemma {:induction false} OffsetPrefix(counts: seq<nat>, more: seq<nat>, k: nat)
    requires k <= |counts|
    ensures Offset(counts + more, k) == Offset(counts, k)
  {
    if k > 0 { OffsetPrefix(counts, more, k - 1); }
  }

  lemma {:induction false} OffsetMonotone(counts: seq<nat>, j: nat, k: nat)
    requires j <= k <= |counts|
    ensures Offset(counts, j) <= Offset(counts, k)
  {
    if j < k { OffsetMonotone(counts, j, k - 1); }
  }

  /** Reader k gave counts[k] packets from the front of its queue to the k-th of adjacent slices. */
  ghost predicate TakenFrom(id: string, before: seq<Packet>, after: seq<Packet>, offset: nat, count: nat,
      indices: map<string, Slice>, buf: seq<Packet>)
  {
    && count <= |before| && after == before[count..]
    && offset + count <= |buf| && buf[offset..offset + count] == before[..count]
    && id in indices && indices[id] == Slice(offset, count)
  }

  /** The first readers gave counts, the others have not been reached. */
  ghost predicate Filled(ids: seq<string>, before: seq<seq<Packet>>, after: seq<seq<Packet>>, counts: seq<nat>,
      indices: map<string, Slice>, buf: seq<Packet>)
  {
    && |counts| <= |ids| == |before| == |after|
    && (forall k :: 0 <= k < |counts| ==>
        TakenFrom(ids[k], before[k], after[k], Offset(counts, k), counts[k], indices, buf))
    && (forall k :: |counts| <= k < |ids| ==> after[k] == before[k] && ids[k] in indices && indices[ids[k]] == NO_SLICE)
  }

  ghost function IdSet(ids: seq<string>): set<string>
  {
    set k | 0 <= k < |ids| :: ids[k]
  }

  ghost predicate Different(ids: seq<string>)
  {
    forall i, j :: 0 <= i < j < |ids| ==> ids[i] != ids[j]
  }

  lemma FillStart(ids: seq<string>, queues: seq<seq<Packet>>, indices: map<string, Slice>, buf: seq<Packet>)
    requires |ids| == |queues| && indices.Keys == IdSet(ids) && forall id :: id in indices ==> indices[id] == NO_SLICE
    ensures Filled(ids, queues, queues, [], indices, buf) && Offset([], 0) == 0
  {}

  lemma FilledKeys(ids: seq<string>, before: seq<seq<Packet>>, after: seq<seq<Packet>>, counts: seq<nat>,
      indices: map<string, Slice>, buf: seq<Packet>)
    requires Filled(ids, before, after, counts, indices, buf) && |counts| < |ids|
    ensures ids[|counts|] in indices
  {}

  lemma FilledStep(ids: seq<string>, before: seq<seq<Packet>>, q: seq<seq<Packet>>, q': seq<seq<Packet>>,
      counts: seq<nat>, n: nat,
                   indices: map<string, Slice>, buf: seq<Packet>, buf': seq<Packet>)
    requires Filled(ids, before, q, counts, indices, buf)
    requires Different(ids)
    requires |counts| < |ids| && |buf'| == |buf| && n <= |q[|counts|]| && q' == q[|counts| := q[|counts|][n..]]
    requires var read := Offset(counts, |counts|);
             read + n <= |buf| && buf'[read..read + n] == q[|counts|][..n] && buf'[..read] == buf[..read]
    ensures Filled(ids, before, q', Append(counts, n), indices[ids[|counts|] := Slice(Offset(counts, |counts|), n)],
            buf')
    ensures |Append(counts, n)| == |counts| + 1
            && Offset(Append(counts, n), |counts| + 1) == Offset(counts, |counts|) + n
  {
    hide TakenFrom, Offset;
    var j := |counts|;
    var more := Append(counts, n);
    var indices' := indices[ids[j] := Slice(Offset(counts, j), n)];
    OffsetStep(counts, n);
    assert before[j] == q[j];
    TakenNow(ids[j], before[j], Offset(counts, j), n, indices, buf');
    forall k | 0 <= k < j
      ensures TakenFrom(ids[k], before[k], q'[k], Offset(more, k), more[k], indices', buf')
    {
      OffsetPrefix(counts, [n], k);
      OffsetNext(counts, k);
      OffsetMonotone(counts, k + 1, j);
      TakenMeans(ids[k], before[k], q[k], Offset(counts, k), counts[k], indices, buf);
      TakenKeeps(ids[k], before[k], q[k], Offset(counts, k), counts[k], indices, buf, indices', buf',
          Offset(counts, j));
    }
  }

  lemma OffsetNext(counts: seq<nat>, k: nat)
    requires k < |counts|
    ensures Offset(counts, k + 1) == Offset(counts, k) + counts[k]
  {}

  lemma OffsetStep(counts: seq<nat>, n: nat)
    ensures Offset(counts + [n], |counts|) == Offset(counts, |counts|)
    ensures Offset(counts + [n], |counts| + 1) == Offset(counts, |counts|) + n
  {
    OffsetPrefix(counts, [n], |counts|);
  }

  lemma TakenNow(id: string, before: seq<Packet>, offset: nat, n: nat, indices: map<string, Slice>, buf: seq<Packet>)
    requires n <= |before| && offset + n <= |buf| && buf[offset..offset + n] == before[..n]
    ensures TakenFrom(id, before, before[n..], offset, n, indices[id := Slice(offset, n)], buf)
  {}

  lemma TakenKeeps(id: string, before: seq<Packet>, after: seq<Packet>, offset: nat, count: nat,
      indices: map<string, Slice>, buf: seq<Packet>,
                   indices': map<string, Slice>, buf': seq<Packet>, read: nat)
    requires TakenFrom(id, before, after, offset, count, indices, buf) && offset + count <= read <= |buf| == |buf'|
             && buf'[..read] == buf[..read]
    requires id in indices' && (id in indices ==> indices'[id] == indices[id])
    ensures TakenFrom(id, before, after, offset, count, indices', buf')
  {
    assert buf'[offset..offset + count] == buf'[..read][offset..offset + count] ==
           buf[..read][offset..offset + count] == buf[offset..offset + count];
  }

  lemma TakenMeans(id: string, before: seq<Packet>, after: seq<Packet>, offset: nat, count: nat,
      indices: map<string, Slice>, buf: seq<Packet>)
    requires TakenFrom(id, before, after, offset, count, indices, buf)
    ensures id in indices && InBuffer(indices[id], |buf|) && Sliced(buf, indices[id]) + after == before
    ensures count == 0 ==> Sliced(buf, indices[id]) == []
  {
    assert before == before[..count] + before[count..];
  }

  ghost function Connections(readers: seq<Reader>): set<Connection>
  {
    set i | 0 <= i < |readers| :: readers[i].connection
  }

  ghost function Queues(readers: seq<Reader>): (q: seq<seq<Packet>>)
    reads Connections(readers)
    ensures |q| == |readers|
    ensures forall k :: 0 <= k < |q| ==> q[k] == readers[k].connection.packets
  {
    seq(|readers|, i requires 0 <= i < |readers| reads Connections(readers) =>
      assert readers[i].connection in Connections(readers);
      readers[i].connection.packets)
  }

  ghost function Ids(readers: seq<Reader>): (ids: seq<string>)
    ensures |ids| == |readers| && forall k :: 0 <= k < |ids| ==> ids[k] == readers[k].globalId
  {
    seq(|readers|, i requires 0 <= i < |readers| => readers[i].globalId)
  }

  lemma IdsDistinct(readers: seq<Reader>)
    requires Distinct(readers)
    ensures |Ids(readers)| == |readers|
    ensures Different(Ids(readers))
  {}

  lemma IdsAdded(readers: seq<Reader>, r: Reader)
    ensures IdSet(Ids(readers + [r])) == IdSet(Ids(readers)) + {r.globalId}
  {
    forall id | id in IdSet(Ids(readers)) + {r.globalId}
      ensures id in IdSet(Ids(readers + [r]))
    {
      var ids := Ids(readers + [r]);
      if id == r.globalId {
        assert ids[|readers|] == id;
      } else {
        var k :| 0 <= k < |readers| && Ids(readers)[k] == id;
        assert ids[k] == id;
      }
    }
  }

  lemma IdsRemoved(readers: seq<Reader>, i: nat)
    requires i < |readers| && Distinct(readers)
    ensures IdSet(Ids(readers[..i] + readers[i + 1..])) == IdSet(Ids(readers)) - {readers[i].globalId}
  {
    var left := readers[..i] + readers[i + 1..];
    forall id | id in IdSet(Ids(readers)) - {readers[i].globalId}
      ensures id in IdSet(Ids(left))
    {
      var k :| 0 <= k < |readers| && Ids(readers)[k] == id;
      assert Ids(left)[if k < i then k else k - 1] == id;
    }
    forall id | id in IdSet(Ids(left))
      ensures id in IdSet(Ids(readers)) && id != readers[i].globalId
    {
      var k :| 0 <= k < |left| && Ids(left)[k] == id;
      assert Ids(readers)[if k < i then k else k + 1] == id;
    }
  }

  class Server {
    const maxPacketReadCount: nat
    const packetBuf: array<Packet>
    const manager: StreamingManager
    var signalReaders: seq<Reader>
    var packetIndices: map<string, Slice>

    ghost predicate Valid()
      reads this, manager
    {
      && packetBuf.Length == maxPacketReadCount && maxPacketReadCount >= 1
      && Distinct(signalReaders)
      && packetIndices.Keys == IdSet(Ids(signalReaders))
      && (forall id :: id in packetIndices ==> packetIndices[id] == NO_SLICE && id in manager.processed)
    }

    constructor (maxCount: nat, fill: Packet, streaming: StreamingManager)
      requires maxCount >= 1
      ensures Valid() && signalReaders == [] && manager == streaming && maxPacketReadCount == maxCount
              && fresh(packetBuf)
    {
      maxPacketReadCount := maxCount;
      packetBuf := new Packet[maxCount](i => fill);
      manager := streaming;
      signalReaders, packetIndices := [], map[];
    }

    /** std::find_if: the reader of the signal, or the number of readers. */
    method Find(signal: int) returns (i: nat)
      ensures i <= |signalReaders|
      ensures forall k :: 0 <= k < i ==> signalReaders[k].signal != signal
      ensures i < |signalReaders| ==> signalReaders[i].signal == signal
    {
      i := 0;
      while i < |signalReaders| && signalReaders[i].signal != signal
        invariant i <= |signalReaders|
        invariant forall k :: 0 <= k < i ==> signalReaders[k].signal != signal
      {
        i := i + 1;
      }
    }

    /** addReader: nothing for a signal already read, else a reader with a connection of its own. */
    method AddReader(signal: int, globalId: string)
      requires Valid() && globalId in manager.processed
      requires forall k :: 0 <= k < |signalReaders| ==>
               (signalReaders[k].signal == signal <==> signalReaders[k].globalId == globalId)
      modifies this`signalReaders, this`packetIndices
      ensures Valid()
      ensures globalId in old(packetIndices) ==> signalReaders == old(signalReaders)
      ensures globalId !in old(packetIndices) ==>
                |signalReaders| == |old(signalReaders)| + 1
                    && signalReaders[..|old(signalReaders)|] == old(signalReaders) &&
                var r := signalReaders[|old(signalReaders)|];
                    r.signal == signal && r.globalId == globalId && fresh(r.connection) && r.connection.packets == []
    {
      var i := Find(signal);
      if i != |signalReaders| {
        assert signalReaders[i].globalId == Ids(signalReaders)[i];
        return;
      }
      ghost var readers := signalReaders;
      var connection := new Connection();
      signalReaders := signalReaders + [Reader(signal, globalId, connection)];
      packetIndices := packetIndices[globalId := NO_SLICE];
      IdsAdded(readers, signalReaders[|readers|]);
    }

    /** removeReader: the reader of the signal goes, with its slice; the others keep their order. */
    method RemoveReader(signal: int)
      requires Valid()
      modifies this`signalReaders, this`packetIndices
      ensures Valid()
      ensures (forall k :: 0 <= k < |signalReaders| ==> signalReaders[k].signal != signal)
      ensures (forall k :: 0 <= k < |old(signalReaders)| ==> old(signalReaders)[k].signal != signal) ==>
              signalReaders == old(signalReaders)
      ensures forall k :: 0 <= k < |old(signalReaders)| && old(signalReaders)[k].signal == signal ==>
                signalReaders == old(signalReaders)[..k] + old(signalReaders)[k + 1..]
    {
      var i := Find(signal);
      if i == |signalReaders| {
        return;
      }
      IdsRemoved(signalReaders, i);
      var id := signalReaders[i].globalId;
      signalReaders := signalReaders[..i] + signalReaders[i + 1..];
      packetIndices := packetIndices - {id};
    }

    /** dequeueUpTo on the i-th reader's connection; the other queues stay as they are. */
    method Drain(i: nat, at: nat, capacity: nat) returns (count: nat)
      requires Distinct(signalReaders) && i < |signalReaders| && at + capacity <= packetBuf.Length
      modifies packetBuf, Connections(signalReaders)
      ensures count == Min(capacity, |old(Queues(signalReaders))[i]|)
      ensures Queues(signalReaders) == old(Queues(signalReaders))[i := old(Queues(signalReaders))[i][count..]]
      ensures packetBuf[..][at..at + count] == old(Queues(signalReaders))[i][..count]
              && packetBuf[..][..at] == old(packetBuf[..])[..at]
    {
      assert signalReaders[i].connection in Connections(signalReaders);
      count := signalReaders[i].connection.DequeueUpTo(packetBuf, at, capacity);
      assert packetBuf[..][at..at + count] == packetBuf[at..at + count];
    }

    /** One turn of the loop over the readers: their packets, and the slice that holds them. */
    method TakeFrom(i: nat, read: nat, capacity: nat, ghost before: seq<seq<Packet>>, ghost counts: seq<nat>)
        returns (count: nat)
      requires Distinct(signalReaders) && |counts| == i < |signalReaders| && read == Offset(counts, i)
               && read + capacity <= packetBuf.Length
      requires Filled(Ids(signalReaders), before, Queues(signalReaders), counts, packetIndices, packetBuf[..])
      modifies this`packetIndices, packetBuf, Connections(signalReaders)
      ensures count <= capacity && Offset(Append(counts, count), i + 1) == read + count
              && |Append(counts, count)| == i + 1
      ensures Filled(Ids(signalReaders), before, Queues(signalReaders), Append(counts, count), packetIndices,
              packetBuf[..])
      ensures packetIndices.Keys == old(packetIndices).Keys
      ensures forall k :: 0 <= k < i ==> Queues(signalReaders)[k] == old(Queues(signalReaders))[k]
      ensures count < capacity ==> Queues(signalReaders)[i] == []
      ensures Total(Queues(signalReaders)) + count == Total(old(Queues(signalReaders)))
    {
      hide Filled, Offset, Total, Queues, Append, Distinct, Different;
      IdsDistinct(signalReaders);
      ghost var q, buf, indices, ids := Queues(signalReaders), packetBuf[..], packetIndices, Ids(signalReaders);
      FilledKeys(ids, before, q, counts, indices, buf);
      count := Drain(i, read, capacity);
      ghost var q', buf' := q[i := q[i][count..]], packetBuf[..];
      assert ids[i] == signalReaders[i].globalId;
      TotalUpdate(q, i, count);
      FilledStep(ids, before, q, q', counts, count, indices, buf, buf');
      packetIndices := packetIndices[signalReaders[i].globalId := Slice(read, count)];
      assert Queues(signalReaders) == q';
    }

    /** One round over the readers, until all have been asked or the buffer is full. */
    method FillBuffer() returns (read: nat, repeatRead: bool, ghost counts: seq<nat>)
      requires Valid()
      modifies this`packetIndices, packetBuf, Connections(signalReaders)
      ensures Filled(Ids(signalReaders), old(Queues(signalReaders)), Queues(signalReaders), counts, packetIndices,
              packetBuf[..])
      ensures packetIndices.Keys == old(packetIndices).Keys
      ensures forall id :: id in packetIndices ==> InBuffer(packetIndices[id], packetBuf.Length)
      ensures read == 0 ==> forall id :: id in packetIndices ==> Sliced(packetBuf[..], packetIndices[id]) == []
      ensures read == Offset(counts, |counts|) <= maxPacketReadCount
      ensures repeatRead ==> read == maxPacketReadCount
      ensures !repeatRead ==> forall k :: 0 <= k < |signalReaders| ==> Queues(signalReaders)[k] == []
      ensures Total(Queues(signalReaders)) + read == Total(old(Queues(signalReaders)))
    {
      hide Filled, Offset, Total, Ids, Queues, Append, Distinct, IdSet;
      ghost var readers := signalReaders;
      ghost var before, ids := Queues(readers), Ids(readers);
      IdsDistinct(readers);
      FillStart(ids, before, packetIndices, packetBuf[..]);
      repeatRead, read, counts := false, 0, [];
      var count := maxPacketReadCount;
      for i := 0 to |signalReaders|
        invariant |counts| == i && read == Offset(counts, i) && count == maxPacketReadCount - read && count > 0
                  && !repeatRead
        invariant Filled(ids, before, Queues(readers), counts, packetIndices, packetBuf[..])
        invariant packetIndices.Keys == old(packetIndices).Keys
        invariant forall k :: 0 <= k < i ==> Queues(readers)[k] == []
        invariant Total(Queues(readers)) + read == Total(before)
      {
        count := TakeFrom(i, read, count, before, counts);
        counts := Append(counts, count);
        read := read + count;
        count := maxPacketReadCount - read;
        if count == 0 {
          repeatRead := true;
          break;
        }
      }
      SlicesFit(ids, before, Queues(readers), counts, packetIndices, packetBuf[..]);
    }

    method ClearIndices()
      modifies this`packetIndices
      ensures packetIndices.Keys == old(packetIndices).Keys && forall id :: id in packetIndices ==>
              packetIndices[id] == NO_SLICE
    {
      var todo := packetIndices.Keys;
      while todo != {}
        invariant todo <= packetIndices.Keys == old(packetIndices).Keys
        invariant forall id :: id in packetIndices && id !in todo ==> packetIndices[id] == NO_SLICE
      {
        var id :| id in todo;
        packetIndices := packetIndices[id := NO_SLICE];
        todo := todo - {id};
      }
    }

    /** The part of startReadThread() under the lock: every queued packet is passed on once, in order. */
    method ReadQueues() returns (sendData: bool)
      requires Valid()
      modifies this`packetIndices, packetBuf, manager, Connections(signalReaders)
      ensures Valid() && manager.processed.Keys == old(manager.processed).Keys
      ensures forall k :: 0 <= k < |signalReaders| ==> Queues(signalReaders)[k] == []
      ensures forall k :: 0 <= k < |signalReaders| ==>
                manager.processed[signalReaders[k].globalId] == old(manager.processed[signalReaders[k].globalId])
                    + old(Queues(signalReaders))[k]
      ensures forall id :: id in manager.processed && id !in packetIndices ==>
              manager.processed[id] == old(manager.processed[id])
      ensures sendData <==> exists k :: 0 <= k < |signalReaders| && old(Queues(signalReaders))[k] != []
    {
      hide Conserved, Filled, Queues, Ids, Distinct, IdSet;
      ghost var start, was, ids := Queues(signalReaders), manager.processed, Ids(signalReaders);
      ConservedStart(ids, start, was, packetIndices);
      sendData := false;
      while true
        invariant Valid() && manager.processed.Keys == was.Keys && packetIndices.Keys == old(packetIndices).Keys
        invariant Conserved(ids, start, was, Queues(signalReaders), manager.processed)
        invariant forall id :: id in was && id !in packetIndices ==> manager.processed[id] == was[id]
        invariant sendData <==> Total(Queues(signalReaders)) < Total(start)
        invariant Total(Queues(signalReaders)) <= Total(start)
        decreases Total(Queues(signalReaders))
      {
        var read, repeatRead := Pass(start, was);
        sendData := sendData || read != 0;
        if !repeatRead {
          break;
        }
      }
      TotalZero(start);
      TotalZero(Queues(signalReaders));
      ConservedEnd(ids, start, was, Queues(signalReaders), manager.processed);
      IdsDistinct(signalReaders);
    }

    /** The body of the do loop: fill the buffer, pass the slices on, clear the indices. */
    method Pass(ghost start: seq<seq<Packet>>, ghost was: map<string, seq<Packet>>)
        returns (read: nat, repeatRead: bool)
      requires Valid() && Conserved(Ids(signalReaders), start, was, Queues(signalReaders), manager.processed)
      modifies this`packetIndices, packetBuf, manager, Connections(signalReaders)
      ensures Valid() && packetIndices.Keys == old(packetIndices).Keys
              && manager.processed.Keys == old(manager.processed).Keys
      ensures Conserved(Ids(signalReaders), start, was, Queues(signalReaders), manager.processed)
      ensures forall id :: id in manager.processed && id !in packetIndices ==>
              manager.processed[id] == old(manager.processed)[id]
      ensures Total(Queues(signalReaders)) + read == Total(old(Queues(signalReaders))) && (repeatRead ==> read >= 1)
      ensures !repeatRead ==> forall k :: 0 <= k < |signalReaders| ==> Queues(signalReaders)[k] == []
    {
      hide Conserved, Filled, Queues, Ids, Distinct, IdSet, Total, Offset, Sliced;
      ghost var before, mid, ids := Queues(signalReaders), manager.processed, Ids(signalReaders);
      ghost var counts;
      read, repeatRead, counts := FillBuffer();
      if read != 0 {
        manager.ProcessPackets(packetIndices, packetBuf);
      }
      PassConserves(ids, start, was, before, mid, Queues(signalReaders), manager.processed, counts, packetIndices,
          packetBuf[..]);
      ClearIndices();
    }
  }

  /** What was passed on and what is queued make up what there was. */
  ghost predicate Conserved(ids: seq<string>, start: seq<seq<Packet>>, was: map<string, seq<Packet>>,
      queues: seq<seq<Packet>>, processed: map<string, seq<Packet>>)
  {
    && |ids| == |start| == |queues|
    && (forall k :: 0 <= k < |ids| ==>
        ids[k] in was && ids[k] in processed && processed[ids[k]] + queues[k] == was[ids[k]] + start[k])
  }

  /** A pass moves packets from the queues to what was passed on, and loses and doubles none. */
  lemma PassConserves(ids: seq<string>, start: seq<seq<Packet>>, was: map<string, seq<Packet>>,
                      before: seq<seq<Packet>>, mid: map<string, seq<Packet>>, after: seq<seq<Packet>>,
                          processed: map<string, seq<Packet>>,
                      counts: seq<nat>, indices: map<string, Slice>, buf: seq<Packet>)
    requires Conserved(ids, start, was, before, mid) && Filled(ids, before, after, counts, indices, buf)
             && processed.Keys == mid.Keys
    requires forall id :: id in mid ==>
             processed[id] == mid[id] + if id in indices then Sliced(buf, indices[id]) else []
    ensures Conserved(ids, start, was, after, processed)
  {
    hide TakenFrom, Offset, Sliced;
    UnfilledEmpty(buf);
    forall k | 0 <= k < |ids|
      ensures processed[ids[k]] + after[k] == was[ids[k]] + start[k]
    {
      if k < |counts| {
        TakenMeans(ids[k], before[k], after[k], Offset(counts, k), counts[k], indices, buf);
        assert processed[ids[k]] + after[k] == mid[ids[k]] + (Sliced(buf, indices[ids[k]]) + after[k]);
      } else {
        assert processed[ids[k]] == mid[ids[k]];
      }
    }
  }

  /** Every slice lies in the buffer; when nothing was read all are empty. */
  lemma SlicesFit(ids: seq<string>, before: seq<seq<Packet>>, after: seq<seq<Packet>>, counts: seq<nat>,
      indices: map<string, Slice>, buf: seq<Packet>)
    requires Filled(ids, before, after, counts, indices, buf)
    requires indices.Keys == IdSet(ids)
    ensures forall id :: id in indices ==> InBuffer(indices[id], |buf|)
    ensures Offset(counts, |counts|) == 0 ==> forall id :: id in indices ==> Sliced(buf, indices[id]) == []
  {
    hide TakenFrom, Offset, Sliced;
    UnfilledEmpty(buf);
    forall id | id in indices
      ensures InBuffer(indices[id], |buf|)
      ensures Offset(counts, |counts|) == 0 ==> Sliced(buf, indices[id]) == []
    {
      var k :| 0 <= k < |ids| && ids[k] == id;
      if k < |counts| {
        TakenMeans(ids[k], before[k], after[k], Offset(counts, k), counts[k], indices, buf);
        OffsetNext(counts, k);
        OffsetMonotone(counts, k + 1, |counts|);
      }
    }
  }

  lemma UnfilledEmpty(buf: seq<Packet>)
    ensures Sliced(buf, NO_SLICE) == []
  {}

  lemma {:induction false} TotalZero(queues: seq<seq<Packet>>)
    ensures Total(queues) == 0 <==> forall k :: 0 <= k < |queues| ==> queues[k] == []
  {
    if queues != [] {
      TotalZero(queues[1..]);
      assert forall k :: 1 <= k < |queues| ==> queues[k] == queues[1..][k - 1];
    }
  }

  lemma ConservedStart(ids: seq<string>, start: seq<seq<Packet>>, was: map<string, seq<Packet>>,
      indices: map<string, Slice>)
    requires |ids| == |start| && indices.Keys == IdSet(ids) && forall id :: id in indices ==> id in was
    ensures Conserved(ids, start, was, start, was)
  {}

  lemma ConservedEnd(ids: seq<string>, start: seq<seq<Packet>>, was: map<string, seq<Packet>>,
      queues: seq<seq<Packet>>, processed: map<string, seq<Packet>>)
    requires Conserved(ids, start, was, queues, processed) && forall k :: 0 <= k < |queues| ==> queues[k] == []
    ensures |ids| == |start| && forall k :: 0 <= k < |ids| ==>
            ids[k] in was && ids[k] in processed && processed[ids[k]] == was[ids[k]] + start[k]
  {
    forall k | 0 <= k < |ids| ensures processed[ids[k]] == was[ids[k]] + start[k] {
      assert processed[ids[k]] + queues[k] == processed[ids[k]];
    }
  }
}
