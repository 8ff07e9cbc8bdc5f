/**
 The mirrored signals of a native streaming device and their links to domain signals, kept while signals
 are announced and withdrawn in any order, and over a reconnection.
 */
module SignalLinks {
  import opened Options

  class Signal {
    const id: string
    const domainId: Option<string>
    var domain: Signal?

    constructor (id: string, domainId: Option<string>)
      ensures this.id == id && this.domainId == domainId && domain == null
    {
      this.id, this.domainId, this.domain := id, domainId, null;
    }

    method AssignDomainSignal(d: Signal?)
      modifies this`domain
      ensures domain == d
    {
      domain := d;
    }
  }

  type Signals = map<string, Signal>

  /** The signal that a domain id names among those present; a signal is not linked to itself. */
  function Named(m: Signals, s: Signal): Signal?
  {
    if s.domainId.Some? && s.domainId.value in m && s.domainId.value != s.id then m[s.domainId.value] else null
  }

  /** The link is to the signal with the recorded (other) domain id if that is present, and to none otherwise. */
  ghost predicate Linked(m: Signals, s: Signal)
    reads s
  {
    s.domainId == Some(s.id) || s.domain == Named(m, s)
  }

  ghost predicate Keyed(m: Signals)
  {
    forall k :: k in m ==> m[k].id == k
  }

  ghost predicate AllLinked(m: Signals)
    reads m.Values
  {
    forall k :: k in m ==> Linked(m, m[k])
  }

  /** Links depend on which signals are present and on their domain ids, not on how they came about. */
  lemma LinksByIds(m: Signals, n: Signals, k: string)
    requires Keyed(m) && Keyed(n) && AllLinked(m) && AllLinked(n) && m.Keys == n.Keys && k in m
    requires m[k].domainId == n[k].domainId != Some(k)
    ensures m[k].domain == null <==> n[k].domain == null
    ensures m[k].domain != null ==> m[k].domain.id == n[k].domain.id == m[k].domainId.value
  {}

  lemma ValuesAdded(m: Signals, k: string, s: Signal)
    requires k !in m
    ensures m[k := s].Values == m.Values + {s}
  {
    var n := m[k := s];
    forall x | x in m.Values + {s} ensures x in n.Values {
      if x == s {
        assert n[k] == s;
      } else {
        var j :| j in m && m[j] == x;
        assert n[j] == x;
      }
    }
  }

  lemma ValuesRemoved(m: Signals, k: string)
    requires k in m && Keyed(m)
    ensures (m - {k}).Values == m.Values - {m[k]}
  {
    forall x | x in m.Values - {m[k]} ensures x in (m - {k}).Values {
      var j :| j in m && m[j] == x;
      assert (m - {k})[j] == x;
    }
  }

  // ---------- Reconnection ----------

  ghost function Carried(carried: map<Signal, Signal?>, s: Signal): Signal?
  {
    if s in carried then carried[s] else null
  }

  /**
   Of a signal announced again: linked within the announced ones, or else as it was before. Nothing is
   said of a domain signal that was withdrawn after it was announced.
   */
  ghost predicate Relinked(m: Signals, carried: map<Signal, Signal?>, lost: set<Signal>, s: Signal)
    reads s
  {
    && (s.domainId.None? ==> s.domain == null)
    && (s.domainId.Some? && s.domainId.value != s.id ==>
          if s.domainId.value in m
          then m[s.domainId.value] in lost || s.domain == m[s.domainId.value]
          else s.domain == Carried(carried, s))
  }

  ghost predicate AllRelinked(m: Signals, carried: map<Signal, Signal?>, lost: set<Signal>)
    reads m.Values
  {
    forall k :: k in m ==> Relinked(m, carried, lost, m[k])
  }

  /** The loop of the two announcement handlers: links to the signal, and from the signal. */
  method LinkTo(m: Signals, s: Signal)
    requires Keyed(m)
    modifies m.Values, s
    ensures forall k :: k in m && m[k] != s ==>
            m[k].domain == if m[k].domainId == Some(s.id) then s else old(m[k].domain)
    ensures s.domainId.Some? && s.domainId.value in m ==> s.domain == m[s.domainId.value]
    ensures s.domainId != Some(s.id) && !(s.domainId.Some? && s.domainId.value in m) ==> s.domain == old(s.domain)
  {
    var todo := m.Keys;
    while todo != {}
      invariant todo <= m.Keys
      invariant forall k :: k in m && m[k] != s ==>
                m[k].domain == if k !in todo && m[k].domainId == Some(s.id) then s else old(m[k].domain)
      invariant s.domainId.Some? && s.domainId.value in m && s.domainId.value !in todo ==>
                s.domain == m[s.domainId.value]
      invariant s.domainId != Some(s.id)
                && !(s.domainId.Some? && s.domainId.value in m && s.domainId.value !in todo) ==>
                s.domain == old(s.domain)
    {
      var k :| k in todo;
      if m[k].domainId == Some(s.id) {
        m[k].AssignDomainSignal(s);
      }
      if s.domainId == Some(k) {
        s.AssignDomainSignal(m[k]);
      }
      todo := todo - {k};
    }
  }

  /** The links when s is announced: right for the announced signals together with s. */
  method Relink(m: Signals, s: Signal, ghost carried: map<Signal, Signal?>, ghost lost: set<Signal>)
    requires Keyed(m) && AllRelinked(m, carried, lost) && (s.id in m ==> m[s.id] == s)
    requires s.id !in m ==> s.domain == Carried(carried, s)
    modifies m.Values, s
    ensures AllRelinked(m[s.id := s], carried, lost)
  {
    if s.domain != null && s.domainId.None? {
      s.AssignDomainSignal(null);
    }
    ghost var before := map k | k in m :: m[k].domain;
    assert forall k :: k in m && m[k] != s ==> Relinked(m, carried, lost, m[k]);
    LinkTo(m, s);
    ghost var n := m[s.id := s];
    forall k | k in n ensures Relinked(n, carried, lost, n[k]) {
      if k != s.id {
        assert m[k].domain == if m[k].domainId == Some(s.id) then s else before[k];
      }
    }
  }

  /** The signals under the device are those of the two tables, which agree where they overlap, but for lost ones. */
  ghost predicate Structure(m: Signals, announced: Signals, components: set<Signal>, lost: set<Signal>)
  {
    && Keyed(m) && Keyed(announced) && lost <= m.Values + announced.Values
    && components == m.Values + announced.Values - lost
    && (forall k :: k in m && k in announced ==> m[k] == announced[k])
  }

  /** Signals not announced yet keep their links. */
  ghost predicate Untouched(m: Signals, announced: Signals, carried: map<Signal, Signal?>)
    reads m.Values
  {
    forall k :: k in m && k !in announced ==> m[k] in carried && m[k].domain == carried[m[k]]
  }

  /** Lost are exactly known signals that were withdrawn after they were announced. */
  ghost predicate LostWithdrawn(m: Signals, announced: Signals, lost: set<Signal>, withdrawn: set<string>)
  {
    forall s :: s in lost ==> s.id in announced && announced[s.id] == s && s.id in withdrawn && s.id !in m
  }

  lemma StructureAnnounced(m: Signals, announced: Signals, components: set<Signal>, lost: set<Signal>, s: Signal)
    requires Structure(m, announced, components, lost) && (s.id in m ==> m[s.id] == s)
    requires s.id !in m ==> s.id !in announced
    ensures Structure(m, announced[s.id := s], if s.id in m then components else components + {s}, lost)
    ensures s.id in announced ==> announced[s.id := s] == announced && announced[s.id] == s
    ensures s.id !in m ==> s !in m.Values + announced.Values
  {
    if s.id in announced {
      assert announced[s.id := s] == announced;
    } else {
      ValuesAdded(announced, s.id, s);
      assert s.id in m ==> m[s.id] in m.Values;
      Elsewhere(announced, s);
      if s.id !in m {
        Elsewhere(m, s);
      }
    }
  }

  lemma Elsewhere(m: Signals, s: Signal)
    requires Keyed(m) && s.id !in m
    ensures s !in m.Values
  {}

  /** A withdrawn signal stays in the other table if it is there, but is no longer shown. */
  lemma StructureWithdrawn(m: Signals, announced: Signals, components: set<Signal>, lost: set<Signal>, id: string)
    requires Structure(m, announced, components, lost) && id in m && m[id] in components
    ensures Structure(m - {id}, announced, components - {m[id]}, LostBy(m, announced, lost, id))
  {
    ValuesRemoved(m, id);
    assert m[id] in m.Values;
    if id in announced {
      assert announced[id] == m[id] && announced[id] in announced.Values;
    } else {
      Elsewhere(announced, m[id]);
    }
  }

  /** A withdrawn signal that was announced before is lost. */
  ghost function LostBy(m: Signals, r: Signals, lost: set<Signal>, id: string): set<Signal>
    requires id in m
  {
    if id in r then lost + {m[id]} else lost
  }

  ghost function Dropped(m: Signals, announced: Signals): set<Signal>
  {
    set k | k in m && k !in announced :: m[k]
  }

  /** Without the signals that were not announced those that were announced remain. */
  lemma StructureReplaced(m: Signals, announced: Signals, components: set<Signal>, lost: set<Signal>)
    requires Structure(m, announced, components, lost) && Dropped(m, announced) !! lost
    ensures Structure(announced, map[], components - Dropped(m, announced), lost)
  {
    forall x | x in announced.Values ensures x !in Dropped(m, announced) {
      var j :| j in announced && announced[j] == x;
      assert x.id == j;
    }
    forall x | x in m.Values && x !in announced.Values ensures x in Dropped(m, announced) {
      var j :| j in m && m[j] == x;
      assert j !in announced;
    }
  }

  /** What the reconnection has done to the links so far. */
  ghost predicate LinksKept(m: Signals, r: Signals, carried: map<Signal, Signal?>, lost: set<Signal>)
    reads m.Values, r.Values
  {
    Untouched(m, r, carried) && AllRelinked(r, carried, lost)
  }

  ghost predicate Tables(m: Signals, r: Signals)
  {
    Keyed(m) && Keyed(r) && forall k :: k in m && k in r ==> m[k] == r[k]
  }

  /** The loop of signalUnavailableHandler: no link from the signals of the table to this one remains. */
  method ClearLinks(m: Signals, id: string)
    requires Keyed(m)
    modifies m.Values
    ensures forall k :: k in m ==> m[k].domain == if m[k].domainId == Some(id) then null else old(m[k].domain)
    ensures old(AllLinked(m)) ==> AllLinked(m - {id})
  {
    var todo := m.Keys;
    while todo != {}
      invariant todo <= m.Keys
      invariant forall k :: k in m ==>
                  m[k].domain == if k !in todo && m[k].domainId == Some(id) then null else old(m[k].domain)
    {
      var k :| k in todo;
      if m[k].domainId == Some(id) {
        m[k].AssignDomainSignal(null);
      }
      todo := todo - {k};
    }
  }

  /** During a reconnection, links to a withdrawn signal are no longer carried over. */
  method ClearCarried(m: Signals, id: string, ghost r: Signals, ghost carried: map<Signal, Signal?>,
      ghost lost: set<Signal>, ghost active: bool)
    returns (ghost links: map<Signal, Signal?>)
    requires Tables(m, r) && id in m && (active ==> LinksKept(m, r, carried, lost))
    modifies m.Values
    ensures active ==> LinksKept(m, r, links, LostBy(m, r, lost, id))
    ensures old(AllLinked(m)) ==> AllLinked(m - {id})
  {
    links := map s | s in carried :: if s in m.Values && s.domainId == Some(id) then null else carried[s];
    ghost var was := map k | k in r :: r[k].domain;
    ghost var gone := LostBy(m, r, lost, id);
    assert active ==> forall k :: k in r ==> Relinked(r, carried, lost, r[k]);
    ClearLinks(m, id);
    forall k | active && k in r ensures Relinked(r, links, gone, r[k]) {
      if r[k] in m.Values {
        assert k in m && m[k] == r[k];
      } else {
        assert r[k].domain == was[k];
      }
    }
  }

  /** The announcement, seen from both tables. */
  method RelinkTables(m: Signals, r: Signals, s: Signal, ghost carried: map<Signal, Signal?>, ghost lost: set<Signal>)
    requires Tables(m, r) && LinksKept(m, r, carried, lost) && (s.id in m ==> m[s.id] == s)
    requires s.id !in m ==> s.id !in r && s !in carried && s.domain == null
    modifies r.Values, s
    ensures LinksKept(m, r[s.id := s], carried, lost)
  {
    assert forall k :: k in m && k != s.id ==> m[k] != s;
    assert forall k :: k in m && k !in r ==> m[k] !in r.Values;
    Relink(r, s, carried, lost);
  }

  lemma TwoTables(m: Signals, r: Signals, components: set<Signal>, lost: set<Signal>)
    requires Structure(m, r, components, lost)
    ensures Tables(m, r)
  {}

  /**
   When nothing was lost, the links after the reconnection are right exactly if none was carried to an absent
   signal.
   */
  lemma LinksAfter(m: Signals, r: Signals, carried: map<Signal, Signal?>)
    requires LinksKept(m, r, carried, {}) && Keyed(r)
    ensures AllLinked(r) <==> forall k :: k in r && !Resolvable(r, r[k]) ==> Carried(carried, r[k]) == null
  {
    assert forall k :: k in r ==> Relinked(r, carried, {}, r[k]);
  }

  lemma LostElsewhere(m: Signals, r: Signals, components: set<Signal>, lost: set<Signal>, withdrawn: set<string>)
    requires LostWithdrawn(m, r, lost, withdrawn) && Structure(m, r, components, lost)
    ensures Dropped(m, r) !! lost
    ensures r.Keys !! withdrawn ==> lost == {}
  {
    assert forall s :: s in lost ==> s.id in r.Keys && s.id in withdrawn;
  }

  lemma StartOfReconnection(m: Signals, carried: map<Signal, Signal?>, lost: set<Signal>)
    requires carried.Keys == m.Values && forall s :: s in carried ==> carried[s] == s.domain
    ensures LinksKept(m, map[], carried, lost) && LostWithdrawn(m, map[], {}, {})
    ensures forall k :: k in m ==> m[k] in carried && carried[m[k]] == m[k].domain
  {
    forall k | k in m ensures m[k] in carried { assert m[k] in m.Values; }
  }

  lemma MoreWithdrawn(m: Signals, r: Signals, lost: set<Signal>, withdrawn: set<string>, id: string)
    requires LostWithdrawn(m, r, lost, withdrawn)
    ensures LostWithdrawn(m, r, lost, withdrawn + {id})
  {}

  /** A known signal withdrawn after it was announced is lost. */
  lemma LostMore(m: Signals, r: Signals, components: set<Signal>, lost: set<Signal>, withdrawn: set<string>, id: string)
    requires LostWithdrawn(m, r, lost, withdrawn) && id in m && id in withdrawn && Structure(m, r, components, lost)
    ensures LostWithdrawn(m - {id}, r, LostBy(m, r, lost, id), withdrawn)
    ensures m[id] !in lost
  {}

  lemma TableMember(m: Signals, r: Signals, components: set<Signal>, lost: set<Signal>, id: string)
    requires Structure(m, r, components, lost) && id in m
    ensures Tables(m, r) && m[id].id == id && (m[id] in components <==> m[id] !in lost)
  {
    assert m[id] in m.Values;
  }

  /** A table without the withdrawn signal and without links to it. */
  lemma FewerUntouched(m: Signals, r: Signals, carried: map<Signal, Signal?>, lost: set<Signal>, id: string)
    requires LinksKept(m, r, carried, lost)
    ensures LinksKept(m - {id}, r, carried, lost)
  {}

  datatype Status = Connected | Reconnecting

  class Device {
    var deviceSignals: Signals
    var deviceSignalsReconnection: Signals
    var reconnecting: bool
    /** The signals under the device component. */
    var components: set<Signal>
    /** The signals of a table whose component was removed. */
    ghost var lost: set<Signal>
    /** The links at the start of the reconnection, without those to signals withdrawn since. */
    ghost var carried: map<Signal, Signal?>
    /** The ids withdrawn during the reconnection and not announced since. */
    ghost var withdrawn: set<string>
    /** Nothing was lost at the start of the reconnection. */
    ghost var whole: bool

    ghost predicate Valid()
      reads this, deviceSignals.Values, deviceSignalsReconnection.Values
    {
      && Structure(deviceSignals, deviceSignalsReconnection, components, lost)
      && (!reconnecting ==> deviceSignalsReconnection == map[])
      && (reconnecting ==>
            && LinksKept(deviceSignals, deviceSignalsReconnection, carried, lost)
            && (whole ==> LostWithdrawn(deviceSignals, deviceSignalsReconnection, lost, withdrawn)))
    }

    constructor ()
      ensures Valid() && deviceSignals == map[] && !reconnecting && lost == {}
    {
      deviceSignals, deviceSignalsReconnection, reconnecting, components := map[], map[], false, {};
      lost, carried, withdrawn, whole := {}, map[], {}, true;
    }

    /** addToDeviceSignals: false stands for AlreadyExistsException. */
    method AddToDeviceSignals(id: string, domainId: Option<string>) returns (ok: bool)
      requires Valid() && !reconnecting
      modifies this`deviceSignals, this`components, deviceSignals.Values
      ensures Valid() && ok == (id !in old(deviceSignals))
      ensures !ok ==> deviceSignals == old(deviceSignals)
      ensures ok ==> deviceSignals.Keys == old(deviceSignals).Keys + {id}
      ensures ok ==> deviceSignals[id].domainId == domainId && fresh(deviceSignals[id])
      ensures ok ==> forall k :: k in old(deviceSignals) ==> deviceSignals[k] == old(deviceSignals)[k]
      ensures old(AllLinked(deviceSignals)) ==> AllLinked(deviceSignals)
    {
      if id in deviceSignals {
        return false;
      }
      var s := new Signal(id, domainId);
      LinkTo(deviceSignals, s);
      ValuesAdded(deviceSignals, id, s);
      components := components + {s};
      deviceSignals := deviceSignals[id := s];
      return true;
    }

    /** signalAvailableHandler: the table in use depends on the status. */
    method SignalAvailable(id: string, domainId: Option<string>) returns (ok: bool)
      requires Valid()
      modifies this`deviceSignals, this`components, this`deviceSignalsReconnection, this`withdrawn
      modifies deviceSignals.Values, deviceSignalsReconnection.Values
      ensures Valid()
      ensures ok == (if reconnecting then id in deviceSignals
              || id !in old(deviceSignalsReconnection) else id !in old(deviceSignals))
      ensures (if reconnecting then deviceSignalsReconnection.Keys == old(deviceSignalsReconnection).Keys + {id}
               else deviceSignals.Keys == old(deviceSignals).Keys + {id})
      ensures !reconnecting && old(AllLinked(deviceSignals)) ==> AllLinked(deviceSignals)
    {
      hide Structure, LinksKept, LostWithdrawn, AllLinked;
      if reconnecting {
        ok := AddOnReconnection(id, domainId);
      } else {
        ok := AddToDeviceSignals(id, domainId);
      }
    }

    /**
     signalUnavailableHandler: false stands for NotFoundException, for an id that is not in the table or a
     signal that is not under the device. The table of a reconnection is not looked at.
     */
    method SignalUnavailable(id: string) returns (ok: bool)
      requires Valid()
      modifies this`deviceSignals, this`components, this`lost, this`carried, this`withdrawn, deviceSignals.Values
      ensures Valid() && ok == (id in old(deviceSignals) && old(deviceSignals)[id] !in old(lost))
      ensures deviceSignals == if ok then old(deviceSignals) - {id} else old(deviceSignals)
      ensures reconnecting ==> withdrawn == old(withdrawn) + {id}
      ensures lost == old(lost) + if ok && id in deviceSignalsReconnection then {old(deviceSignals)[id]} else {}
      ensures ok && old(AllLinked(deviceSignals)) ==> AllLinked(deviceSignals)
    {
      hide Structure, LinksKept, LostWithdrawn, AllLinked, Tables;
      ghost var m, r := deviceSignals, deviceSignalsReconnection;
      withdrawn := if reconnecting then withdrawn + {id} else withdrawn;
      if reconnecting && whole {
        MoreWithdrawn(m, r, lost, old(withdrawn), id);
      }
      if id !in deviceSignals {
        return false;
      }
      TableMember(m, r, components, lost, id);
      carried := ClearCarried(deviceSignals, id, r, carried, lost, reconnecting);
      if deviceSignals[id] !in components {
        assert LostBy(m, r, lost, id) == lost;
        return false;
      }
      Withdraw(id);
      return true;
    }

    /** removeSignal, and the entry of the table. */
    method Withdraw(id: string)
      requires Structure(deviceSignals, deviceSignalsReconnection, components, lost)
      requires id in deviceSignals && deviceSignals[id] in components
               && (!reconnecting ==> deviceSignalsReconnection == map[])
      requires reconnecting ==>
                 && LinksKept(deviceSignals, deviceSignalsReconnection, carried,
                     LostBy(deviceSignals, deviceSignalsReconnection, lost, id))
                 && (whole ==>
                       && id in withdrawn
                       && LostWithdrawn(deviceSignals, deviceSignalsReconnection, lost, withdrawn))
      modifies this`deviceSignals, this`components, this`lost
      ensures Valid() && deviceSignals == old(deviceSignals) - {id}
              && lost == LostBy(old(deviceSignals), deviceSignalsReconnection, old(lost), id)
    {
      hide Structure, LinksKept, LostWithdrawn;
      ghost var m, r := deviceSignals, deviceSignalsReconnection;
      StructureWithdrawn(m, r, components, lost, id);
      if reconnecting && whole {
        LostMore(m, r, components, lost, withdrawn, id);
      }
      lost := LostBy(m, r, lost, id);
      if reconnecting {
        FewerUntouched(m, r, carried, lost, id);
      }
      components := components - {deviceSignals[id]};
      deviceSignals := deviceSignals - {id};
    }

    /** addToDeviceSignalsOnReconnection: a signal already known keeps its object and its domain id. */
    method AddOnReconnection(id: string, domainId: Option<string>) returns (ok: bool)
      requires Valid() && reconnecting
      modifies this`components, this`deviceSignalsReconnection, this`withdrawn, deviceSignals.Values,
          deviceSignalsReconnection.Values
      ensures Valid()
      ensures ok == (id in deviceSignals || id !in old(deviceSignalsReconnection))
      ensures withdrawn == if ok then old(withdrawn) - {id} else old(withdrawn)
      ensures deviceSignalsReconnection.Keys == old(deviceSignalsReconnection).Keys + {id}
      ensures forall k :: k in old(deviceSignalsReconnection) ==>
              deviceSignalsReconnection[k] == old(deviceSignalsReconnection)[k]
      ensures id !in deviceSignals && id !in old(deviceSignalsReconnection) ==>
              deviceSignalsReconnection[id].domainId == domainId
    {
      hide Structure, LinksKept, LostWithdrawn;
      var s: Signal;
      if id in deviceSignals {
        TableMember(deviceSignals, deviceSignalsReconnection, components, lost, id);
        s := deviceSignals[id];
      } else if id !in deviceSignalsReconnection {
        s := new Signal(id, domainId);
      } else {
        return false;
      }
      Announce(s);
      return true;
    }

    /** The announced signal gets its links and joins the reconnection table. */
    method Announce(s: Signal)
      requires Valid() && reconnecting
      requires s.id in deviceSignals ==> s == deviceSignals[s.id]
      requires s.id !in deviceSignals ==> s.id !in deviceSignalsReconnection && s !in carried && s.domain == null
      modifies this`components, this`deviceSignalsReconnection, this`withdrawn, deviceSignalsReconnection.Values, s
      ensures Valid() && withdrawn == old(withdrawn) - {s.id}
      ensures deviceSignalsReconnection == old(deviceSignalsReconnection)[s.id := s]
    {
      hide Structure, LinksKept, LostWithdrawn;
      ghost var m, r := deviceSignals, deviceSignalsReconnection;
      StructureAnnounced(m, r, components, lost, s);
      TwoTables(m, r, components, lost);
      if whole {
        StillWithdrawn(m, r, lost, withdrawn, s);
      }
      RelinkTables(deviceSignals, deviceSignalsReconnection, s, carried, lost);
      withdrawn := withdrawn - {s.id};
      if s.id !in deviceSignals {
        components := components + {s};
      }
      if s.id !in deviceSignalsReconnection {
        deviceSignalsReconnection := deviceSignalsReconnection[s.id := s];
      }
    }

    /** Signals that exist no longer are removed; false stands for NotFoundException. */
    method RemoveGone() returns (ok: bool)
      requires Structure(deviceSignals, deviceSignalsReconnection, components, lost)
      modifies this`components, this`lost
      ensures Structure(deviceSignals, deviceSignalsReconnection, components, lost)
      ensures ok <==> Dropped(deviceSignals, deviceSignalsReconnection) !! old(lost)
      ensures ok ==> components == old(components) - Dropped(deviceSignals, deviceSignalsReconnection)
      ensures ok ==> lost == old(lost) + Dropped(deviceSignals, deviceSignalsReconnection)
      ensures !ok ==> old(lost) <= lost
    {
      ghost var dropped := Dropped(deviceSignals, deviceSignalsReconnection);
      ghost var gone: set<Signal> := {};
      var todo := deviceSignals.Keys;
      while todo != {}
        invariant todo <= deviceSignals.Keys
        invariant gone == set k | k in deviceSignals && k !in todo
                  && k !in deviceSignalsReconnection :: deviceSignals[k]
        invariant components == old(components) - gone && lost == old(lost) + gone && gone !! old(lost)
                  && gone <= dropped
      {
        var k :| k in todo;
        if k !in deviceSignalsReconnection {
          assert deviceSignals[k] in deviceSignals.Values && deviceSignals[k] in dropped;
          if deviceSignals[k] !in components {
            return false;
          }
          components := components - {deviceSignals[k]};
          lost := lost + {deviceSignals[k]};
          gone := gone + {deviceSignals[k]};
        }
        todo := todo - {k};
      }
      assert gone == dropped;
      return true;
    }

    /** connectionStatusChangedHandler; false stands for NotFoundException, which leaves table and status alone. */
    method StatusChanged(status: Status) returns (ok: bool)
      requires Valid()
      modifies this
      ensures Valid() && (ok ==> reconnecting == status.Reconnecting?)
      ensures ok <==> status.Reconnecting? || old(Dropped(deviceSignals, deviceSignalsReconnection)) !! old(lost)
      ensures old(reconnecting) && old(whole) ==> ok
      ensures !ok || status.Reconnecting? ==>
                deviceSignals == old(deviceSignals) && deviceSignalsReconnection == old(deviceSignalsReconnection)
      ensures status.Reconnecting? && !old(reconnecting) ==>
                && withdrawn == {} && whole == (lost == {})
                && forall k :: k in deviceSignals ==>
                    deviceSignals[k] in carried && carried[deviceSignals[k]] == deviceSignals[k].domain
      ensures status.Reconnecting? ==> lost == old(lost)
      ensures ok && status.Connected? ==>
                && carried == old(carried) && deviceSignals == old(deviceSignalsReconnection)
                && lost == old(lost) && components == deviceSignals.Values - lost
      ensures status.Connected? && old(reconnecting) && old(whole) ==>
                (deviceSignals.Keys == old(deviceSignalsReconnection).Keys - old(withdrawn) <==>
                    old(deviceSignalsReconnection).Keys !! old(withdrawn))
                && (old(deviceSignalsReconnection).Keys !! old(withdrawn) ==> components == deviceSignals.Values)
      ensures status.Connected? && old(reconnecting) && ok && lost == {} ==>
                (AllLinked(deviceSignals) <==>
                 forall k :: k in deviceSignals && !Resolvable(deviceSignals, deviceSignals[k]) ==>
                     Carried(carried, deviceSignals[k]) == null)
    {
      hide Structure, LinksKept, LostWithdrawn, AllLinked, Dropped;
      ghost var m, r, before := deviceSignals, deviceSignalsReconnection, lost;
      if reconnecting && whole {
        LostElsewhere(m, r, components, lost, withdrawn);
      }
      if status.Connected? {
        if Dropped(m, r) !! lost {
          StructureReplaced(m, r, components, lost);
          ShownAfter(m, r, components, lost);
        }
        if reconnecting && lost == {} {
          TwoTables(m, r, components, lost);
          LinksAfter(m, r, carried);
        }
        ok := RemoveGone();
        if !ok {
          if reconnecting { MoreLost(m, r, carried, before, lost); }
          return false;
        }
        deviceSignals := deviceSignalsReconnection;
        deviceSignalsReconnection := map[];
        lost := before;
      } else if !reconnecting {
        carried := map s | s in deviceSignals.Values :: s.domain;
        withdrawn := {};
        whole := lost == {};
        StartOfReconnection(deviceSignals, carried, lost);
      }
      reconnecting := status.Reconnecting?;
      ok := true;
    }
  }

  lemma ShownAfter(m: Signals, r: Signals, components: set<Signal>, lost: set<Signal>)
    requires Structure(r, map[], components - Dropped(m, r), lost)
    ensures components - Dropped(m, r) == r.Values - lost
  {}

  lemma MoreLost(m: Signals, r: Signals, carried: map<Signal, Signal?>, lost: set<Signal>, more: set<Signal>)
    requires LinksKept(m, r, carried, lost) && lost <= more
    ensures LinksKept(m, r, carried, more)
  {}

  /** The domain id is none, the signal's own, or one of those present. */
  predicate Resolvable(m: Signals, s: Signal)
  {
    s.domainId.None? || s.domainId.value == s.id || s.domainId.value in m
  }

  /** An accepted announcement is of a signal that was not lost. */
  lemma StillWithdrawn(m: Signals, r: Signals, lost: set<Signal>, withdrawn: set<string>, s: Signal)
    requires LostWithdrawn(m, r, lost, withdrawn) && (s.id in m || s.id !in r)
    ensures LostWithdrawn(m, r[s.id := s], lost, withdrawn - {s.id})
  {}

  // ---------- Two runs ----------

  /** A signal announced again without its domain signal keeps its link to it. */
  method StaleLink() returns (device: Device)
    ensures device.Valid() && device.deviceSignals.Keys == {"v"} && !AllLinked(device.deviceSignals)
  {
    hide Structure, LinksKept, LostWithdrawn, AllLinked;
    device := TwoSignals();
    ghost var v := device.deviceSignals["v"];
    var ok := device.StatusChanged(Reconnecting);
    assert v in device.carried && device.carried[v] != null;
    ok := device.AddOnReconnection("v", Some("t"));
    TableMember(device.deviceSignals, device.deviceSignalsReconnection, device.components, device.lost, "v");
    ok := device.StatusChanged(Connected);
    assert Carried(device.carried, device.deviceSignals["v"]) != null;
  }

  /** A signal announced again and then withdrawn stays in the table, without a component. */
  method WithdrawnStays() returns (device: Device)
    ensures device.Valid() && !device.reconnecting && "t" in device.deviceSignals
            && device.deviceSignals["t"] !in device.components
  {
    hide Structure, LinksKept, LostWithdrawn, AllLinked;
    device := TwoSignals();
    ghost var t := device.deviceSignals["t"];
    var ok := device.StatusChanged(Reconnecting);
    ok := device.AddOnReconnection("t", None);
    TableMember(device.deviceSignals, device.deviceSignalsReconnection, device.components, device.lost, "t");
    ok := device.SignalUnavailable("t");
    assert t in device.lost;
    ok := device.StatusChanged(Connected);
  }

  method TwoSignals() returns (device: Device)
    ensures fresh(device) && device.Valid() && !device.reconnecting && device.deviceSignals.Keys == {"t", "v"}
    ensures fresh(device.deviceSignals.Values) && device.deviceSignalsReconnection == map[] && device.lost == {}
    ensures device.deviceSignals["v"].domainId == Some("t") && device.deviceSignals["v"].domain != null
    ensures device.deviceSignals["v"].id == "v"
  {
    hide Structure, LinksKept;
    device := new Device();
    var ok := device.AddToDeviceSignals("t", None);
    ok := device.AddToDeviceSignals("v", Some("t"));
    TableMember(device.deviceSignals, device.deviceSignalsReconnection, device.components, device.lost, "v");
    assert Linked(device.deviceSignals, device.deviceSignals["v"]);
  }
}
