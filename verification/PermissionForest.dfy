/**
 The tree of permission managers that cache effective permissions (the access-control build).
 Every operation keeps each cache equal to what its own settings and its parent's cache give;
 from that the cache is what a recomputation down the whole ancestor chain gives.
 */
module PermissionForest {
  import opened Options
  import opened PermissionTables
  import opened PermissionBuilder

  const DEFAULT_PERMISSIONS := Permissions(true, EMPTY)

  /** The tables of a manager with the given settings below a parent whose effective tables are `above`. */
  function Effective(local: Permissions, above: Option<Tables>): Tables
  {
    if !local.inherited then local.tables
    else Extend(if above.Some? then Extend(EMPTY, above.value) else EMPTY, local.tables)
  }

  class PermissionManager {
    var parent: PermissionManager?
    var children: set<PermissionManager>
    var permissions: Permissions
    var localPermissions: Permissions

    /** A manager of its own, or one below `above`, joining the managers of S. */
    constructor (above: PermissionManager?, ghost S: set<PermissionManager>)
      requires Settled(S) && (above == null || above in S)
      modifies S`children, S`permissions, S`localPermissions
      ensures Settled(S + {this})
      ensures forall m :: m in S ==> m.localPermissions == old(m.localPermissions)
      ensures parent == above && children == {} && localPermissions == DEFAULT_PERMISSIONS
      ensures forall m :: m in S ==> m.children == old(m.children) + if m == above then {this} else {}
    {
      hide PermissionTables.Extend, Effective, Settled, Up, Under;
      parent, children := null, {};
      permissions, localPermissions := DEFAULT_PERMISSIONS, DEFAULT_PERMISSIONS;
      new;
      JoinAlone(S, this);
      if above != null {
        LoneNotAbove(S + {this}, this, above);
        SetParent(above, S + {this});
      }
    }

    /** setPermissions(): the manager's own cache first, then the caches below it. */
    method SetPermissions(p: Permissions, ghost S: set<PermissionManager>)
      requires Settled(S) && this in S
      modifies S`permissions, S`localPermissions
      ensures Settled(S) && localPermissions == p
      ensures forall m :: m in S && m != this ==> m.localPermissions == old(m.localPermissions)
    {
      ghost var rank :| Ranked(S, rank);
      Recompute(p, S, rank, {});
    }

    /** The same, while the inheriting managers of `stale` still wait for their own update. */
    method Recompute(p: Permissions, ghost S: set<PermissionManager>, ghost rank: map<PermissionManager, nat>,
        ghost stale: set<PermissionManager>)
      requires this in S && Ranked(S, rank)
      requires forall m :: m in S && m != this && !(m in stale && m.localPermissions.inherited) ==> Consistent(m)
      modifies S`permissions, S`localPermissions
      ensures Ranked(S, rank) && localPermissions == p && ConsistentExcept(S, stale - {this})
      ensures forall m :: m in S && m != this ==> m.localPermissions == old(m.localPermissions)
      decreases Higher(rank, rank[this]), 2
    {
      hide PermissionTables.Extend;
      localPermissions := p;
      ComputeOwn();
      UpdateChildPermissions(S, rank, stale - {this});
    }

    /** The branch of setPermissions() that fills the manager's own cache. */
    method ComputeOwn()
      requires parent != this
      modifies this`permissions
      ensures permissions.tables == Effective(localPermissions, AboveTables(this))
      ensures permissions.inherited <==> localPermissions.inherited && parent != null
      ensures !localPermissions.inherited ==> permissions == localPermissions
    {
      hide PermissionTables.Extend;
      if localPermissions.inherited {
        var builder := new PermissionsBuilder();
        if parent != null {
          builder.Inherit(true);
          builder.Extend(parent.permissions);
        }
        builder.Extend(localPermissions);
        permissions := builder.Build();
      } else {
        permissions := localPermissions;
      }
    }

    /** updateInheritedPermissions() */
    method UpdateInheritedPermissions(ghost S: set<PermissionManager>, ghost rank: map<PermissionManager, nat>,
        ghost stale: set<PermissionManager>)
      requires this in S && Ranked(S, rank) && ConsistentExcept(S, stale + {this})
      modifies S`permissions, S`localPermissions
      ensures ConsistentExcept(S, stale - {this})
      ensures forall m :: m in S ==> m.localPermissions == old(m.localPermissions)
      decreases Higher(rank, rank[this]), 3
    {
      hide PermissionTables.Extend;
      if localPermissions.inherited {
        Recompute(localPermissions, S, rank, stale);
      }
    }

    /** updateChildPermissions(): the children in whatever order the set gives them. */
    method UpdateChildPermissions(ghost S: set<PermissionManager>, ghost rank: map<PermissionManager, nat>,
        ghost stale: set<PermissionManager>)
      requires this in S && Ranked(S, rank) && ConsistentExcept(S, stale + children)
      modifies S`permissions, S`localPermissions
      ensures ConsistentExcept(S, stale)
      ensures forall m :: m in S ==> m.localPermissions == old(m.localPermissions)
      decreases Higher(rank, rank[this]), 1
    {
      hide PermissionTables.Extend;
      var todo := children;
      while todo != {}
        invariant todo <= children && ConsistentExcept(S, stale + todo)
        invariant forall m :: m in S ==> m.localPermissions == old(m.localPermissions)
      {
        var child :| child in todo;
        todo := todo - {child};
        HigherShrinks(rank, this, child);
        child.UpdateInheritedPermissions(S, rank, stale + todo);
      }
    }

    /** setParent(), for a new parent that is not this manager or one below it. */
    method SetParent(above: PermissionManager?, ghost S: set<PermissionManager>)
      requires Settled(S) && this in S
      requires above == null || (above in S && !Under(S, above, this))
      modifies this`parent, S`children, S`permissions, S`localPermissions
      ensures Settled(S) && parent == above
      ensures forall m :: m in S ==> m.localPermissions == old(m.localPermissions)
      ensures forall m :: m in S ==> m.children == old(m.children) - {this} + if m == above then {this} else {}
    {
      hide PermissionTables.Extend, Effective, Up, Under, Ranked;
      ghost var rank :| Ranked(S, rank);
      ghost var moved := Relink(above, S, rank);
      Recompute(localPermissions, S, moved, {});
    }

    /** The part of setParent() that changes the tree. */
    method Relink(above: PermissionManager?, ghost S: set<PermissionManager>,
        ghost rank: map<PermissionManager, nat>) returns (ghost moved: map<PermissionManager, nat>)
      requires Ranked(S, rank) && this in S
      requires above == null || (above in S && !Under(S, above, this))
      modifies this`parent, S`children
      ensures Ranked(S, moved) && parent == above
      ensures forall m :: m in S ==> m.children == old(m.children) - {this} + if m == above then {this} else {}
    {
      hide Up, Under;
      moved := ShiftedRanks(S, rank, this, above);
      Rewire(above, S, rank);
      forall m | m in S && m.parent != null
        ensures m.parent in S && m in m.parent.children && moved[m.parent] < moved[m]
      {
        assert m != this ==> m in old(m.parent.children);
      }
      forall m, c | m in S && c in m.children
        ensures c in S && c.parent == m
      {
        assert c != this ==> c in old(m.children);
      }
    }

    method Rewire(above: PermissionManager?, ghost S: set<PermissionManager>, ghost rank: map<PermissionManager, nat>)
      requires Ranked(S, rank) && this in S && (above == null || above in S)
      modifies this`parent, S`children
      ensures parent == above
      ensures forall m :: m in S ==> m.children == old(m.children) - {this} + if m == above then {this} else {}
    {
      if parent != null {
        parent.RemoveChildManager(this);
      }
      parent := above;
      if parent != null {
        parent.AddChildManager(this);
      }
    }

    method AddChildManager(child: PermissionManager)
      modifies this`children
      ensures children == old(children) + {child}
    {
      children := children + {child};
    }

    method RemoveChildManager(child: PermissionManager)
      modifies this`children
      ensures children == old(children) - {child}
    {
      children := children - {child};
    }

    /** clone(): a sibling with the same settings, and so with the same effective tables. */
    method Clone(ghost S: set<PermissionManager>) returns (copy: PermissionManager)
      requires Settled(S) && this in S
      modifies S`children, S`permissions, S`localPermissions
      ensures fresh(copy) && Settled(S + {copy})
      ensures copy.parent == parent && copy.children == {}
      ensures copy.localPermissions == localPermissions && copy.permissions.tables == permissions.tables
      ensures forall m :: m in S ==> m.localPermissions == old(m.localPermissions)
    {
      hide PermissionTables.Extend, Effective, Settled, Consistent;
      SettledAt(S, this);
      copy := new PermissionManager(parent, S);
      copy.SetPermissions(localPermissions, S + {copy});
      SettledAt(S + {copy}, this);
      SettledAt(S + {copy}, copy);
      SameTables(this, copy);
    }

    /** isAuthorized(): no group of the user is denied, then some group is allowed. */
    method IsAuthorized(groups: seq<string>, permission: Mask) returns (authorized: bool)
      ensures authorized <==> Authorized(permissions.tables, groups, permission)
    {
      hide Has;
      for i := 0 to |groups|
        invariant forall j :: 0 <= j < i ==> !Has(Or0(Get(permissions.tables.denied, groups[j])), permission)
      {
        var mask := Or0(Get(permissions.tables.denied, groups[i]));
        if Has(mask, permission) {
          assert CellVerdict(CellOf(permissions.tables, groups[i]), permission) == Denied;
          return false;
        }
      }
      for i := 0 to |groups|
        invariant forall j :: 0 <= j < i ==> !Has(Or0(Get(permissions.tables.allowed, groups[j])), permission)
      {
        var mask := Or0(Get(permissions.tables.allowed, groups[i]));
        if Has(mask, permission) {
          assert CellVerdict(CellOf(permissions.tables, groups[i]), permission) == Allowed;
          return true;
        }
      }
      return false;
    }
  }

  /** A user is let through when no group's verdict is Denied and some group's is Allowed. */
  ghost predicate Authorized(t: Tables, groups: seq<string>, p: Mask)
  {
    && (forall j :: 0 <= j < |groups| ==> CellVerdict(CellOf(t, groups[j]), p) != Denied)
    && (exists j :: 0 <= j < |groups| && CellVerdict(CellOf(t, groups[j]), p) == Allowed)
  }

  // ---------- Forests ----------

  /** Parents and children agree, stay within S, and parents have the smaller rank. */
  ghost predicate Ranked(S: set<PermissionManager>, older rank: map<PermissionManager, nat>)
    reads S
  {
    && rank.Keys == S
    && (forall m {:trigger m.parent} :: m in S && m.parent != null ==>
          m.parent in S && m in m.parent.children && rank[m.parent] < rank[m])
    && (forall m, c {:trigger c in m.children} :: m in S && c in m.children ==> c in S && c.parent == m)
  }

  ghost function Higher(rank: map<PermissionManager, nat>, r: nat): set<PermissionManager>
  {
    set m | m in rank && rank[m] > r
  }

  lemma HigherShrinks(rank: map<PermissionManager, nat>, m: PermissionManager, c: PermissionManager)
    requires m in rank && c in rank && rank[m] < rank[c]
    ensures Higher(rank, rank[c]) < Higher(rank, rank[m])
  {
    assert c in Higher(rank, rank[m]) && c !in Higher(rank, rank[c]);
  }

  ghost function AboveTables(m: PermissionManager): Option<Tables>
    reads m, m.parent
  {
    if m.parent == null then None else Some(m.parent.permissions.tables)
  }

  /** The cache is what the settings give on top of the parent's cache. */
  ghost predicate Consistent(m: PermissionManager)
    reads m, m.parent
  {
    m.permissions.tables == Effective(m.localPermissions, AboveTables(m))
  }

  ghost predicate ConsistentExcept(S: set<PermissionManager>, stale: set<PermissionManager>)
    reads S, set m | m in S :: m.parent
  {
    forall m :: m in S && !(m in stale && m.localPermissions.inherited) ==> Consistent(m)
  }

  /** What every public operation keeps: no cycles, and every cache up to date with its parent's. */
  ghost predicate Settled(S: set<PermissionManager>)
    reads S, set m | m in S :: m.parent
  {
    (exists rank: map<PermissionManager, nat> :: Ranked(S, rank)) && ConsistentExcept(S, {})
  }

  lemma SettledAt(S: set<PermissionManager>, m: PermissionManager)
    requires Settled(S) && m in S
    ensures Consistent(m) && (m.parent == null || m.parent in S)
  {
    hide Effective;
  }

  lemma SameTables(m: PermissionManager, c: PermissionManager)
    requires Consistent(m) && Consistent(c) && m.parent == c.parent && m.localPermissions == c.localPermissions
    ensures m.permissions.tables == c.permissions.tables
  {
    hide Effective;
  }

  /** The n-th ancestor. */
  ghost function Up(S: set<PermissionManager>, m: PermissionManager?, n: nat): PermissionManager?
    reads S
  {
    if n == 0 || m == null || m !in S then m else Up(S, m.parent, n - 1)
  }

  /** m is a or one of its descendants. */
  ghost predicate Under(S: set<PermissionManager>, m: PermissionManager, a: PermissionManager)
    reads S
  {
    exists n: nat :: Up(S, m, n) == a
  }

  /** Ranks that also suit the subtree of m once it hangs below `above`. */
  lemma ShiftedRanks(S: set<PermissionManager>, rank: map<PermissionManager, nat>, m: PermissionManager,
      above: PermissionManager?) returns (moved: map<PermissionManager, nat>)
    requires Ranked(S, rank) && m in S && (above == null || (above in S && !Under(S, above, m)))
    ensures moved.Keys == S
    ensures above != null ==> moved[above] < moved[m]
    ensures forall c :: c in S && c != m && c.parent != null ==> c.parent in S && moved[c.parent] < moved[c]
  {
    moved := map c | c in S :: rank[c] + if above != null && Under(S, c, m) then rank[above] + 1 else 0;
    assert Up(S, m, 0) == m;
    forall c | c in S && c != m && c.parent != null && Under(S, c.parent, m)
      ensures Under(S, c, m)
    {
      var n: nat :| Up(S, c.parent, n) == m;
      assert Up(S, c, n + 1) == m;
    }
    forall c | c in S && c != m && c.parent != null && Under(S, c, m)
      ensures Under(S, c.parent, m)
    {
      var n: nat :| Up(S, c, n) == m;
      assert Up(S, c.parent, n - 1) == m;
    }
  }

  /** A new manager without relatives joins. */
  lemma JoinAlone(S: set<PermissionManager>, m: PermissionManager)
    requires Settled(S) && m !in S && m.parent == null && m.children == {}
    requires m.localPermissions == DEFAULT_PERMISSIONS == m.permissions
    ensures Settled(S + {m})
  {
    hide PermissionTables.Extend;
    var rank :| Ranked(S, rank);
    assert Ranked(S + {m}, rank[m := 0]);
    EmptyIsIdentity(EMPTY);
  }

  lemma {:induction false} LoneNotAbove(S: set<PermissionManager>, m: PermissionManager, a: PermissionManager)
    requires Settled(S) && m in S && a in S && a != m && m.children == {}
    ensures !Under(S, a, m)
  {
    forall n: nat ensures Up(S, a, n) != m {
      LoneNotUp(S, m, a, n);
    }
  }

  lemma {:induction false} LoneNotUp(S: set<PermissionManager>, m: PermissionManager, a: PermissionManager?, n: nat)
    requires Settled(S) && m in S && m.children == {} && a != m
    ensures Up(S, a, n) != m
  {
    if n > 0 && a != null && a in S {
      LoneNotUp(S, m, a.parent, n - 1);
    }
  }

  // ---------- Recomputation down the ancestor chain ----------

  /** The effective tables worked out from the settings alone. */
  ghost function Recomputed(S: set<PermissionManager>, rank: map<PermissionManager, nat>, m: PermissionManager): Tables
    requires Ranked(S, rank) && m in S
    reads S
    decreases rank[m]
  {
    Effective(m.localPermissions, if m.parent == null then None else Some(Recomputed(S, rank, m.parent)))
  }

  /** Every cache of a settled forest is the recomputation from the root. */
  lemma {:induction false} CacheIsRecomputed(S: set<PermissionManager>, rank: map<PermissionManager, nat>,
      m: PermissionManager)
    requires Settled(S) && Ranked(S, rank) && m in S
    ensures m.permissions.tables == Recomputed(S, rank, m)
    decreases rank[m]
  {
    hide PermissionTables.Extend;
    if m.parent != null {
      CacheIsRecomputed(S, rank, m.parent);
    }
    assert Consistent(m);
  }

  /** The settings that matter for m: from the nearest manager that does not inherit, or the root, down to m. */
  ghost function ChainOf(S: set<PermissionManager>, rank: map<PermissionManager, nat>,
      m: PermissionManager): seq<Tables>
    requires Ranked(S, rank) && m in S
    reads S
    decreases rank[m]
  {
    (if m.parent == null || !m.localPermissions.inherited then [] else ChainOf(S, rank, m.parent))
        + [m.localPermissions.tables]
  }

  ghost predicate AllReachable(S: set<PermissionManager>)
    reads S
  {
    forall m :: m in S ==> Reachable(m.localPermissions.tables)
  }

  lemma {:induction false} RecomputedIsCombined(S: set<PermissionManager>, rank: map<PermissionManager, nat>,
      m: PermissionManager)
    requires Ranked(S, rank) && m in S && AllReachable(S)
    ensures Recomputed(S, rank, m) == Combined(ChainOf(S, rank, m))
    ensures forall j :: 0 <= j < |ChainOf(S, rank, m)| ==> Reachable(ChainOf(S, rank, m)[j])
    decreases rank[m]
  {
    hide PermissionTables.Extend, Reachable;
    var chain := ChainOf(S, rank, m);
    var last := m.localPermissions.tables;
    EmptyIsIdentity(last);
    if m.parent == null || !m.localPermissions.inherited {
      assert chain[..|chain| - 1] == [];
    } else {
      RecomputedIsCombined(S, rank, m.parent);
      CombinedReachable(ChainOf(S, rank, m.parent));
      EmptyIsIdentity(Recomputed(S, rank, m.parent));
      assert chain[..|chain| - 1] == ChainOf(S, rank, m.parent);
    }
  }

  /** Authorisation by cache is authorisation by the nearest inherited settings that decide. */
  lemma AuthorizedByNearest(S: set<PermissionManager>, rank: map<PermissionManager, nat>, m: PermissionManager,
      groups: seq<string>, p: Mask)
    requires Settled(S) && Ranked(S, rank) && m in S && AllReachable(S) && SingleBit(p)
    ensures Authorized(m.permissions.tables, groups, p) <==>
              (forall j :: 0 <= j < |groups| ==> NearestVerdict(ChainOf(S, rank, m), groups[j], p) != Denied) &&
              (exists j :: 0 <= j < |groups| && NearestVerdict(ChainOf(S, rank, m), groups[j], p) == Allowed)
  {
    hide CellVerdict, CellOf, SingleBit, NearestVerdict, ChainOf, Recomputed, Reachable;
    CacheIsRecomputed(S, rank, m);
    RecomputedIsCombined(S, rank, m);
    forall j | 0 <= j < |groups|
      ensures CellVerdict(CellOf(m.permissions.tables, groups[j]), p) ==
              NearestVerdict(ChainOf(S, rank, m), groups[j], p)
    {
      CombinedVerdict(ChainOf(S, rank, m), groups[j], p);
    }
  }

  // ---------- From the builder to the authorisation ----------

  /** A group that was assigned is decided by the assignment, whatever is inherited. */
  lemma AssignedDecides(local: Permissions, above: Option<Tables>, g: string, p: Mask)
    requires Reachable(local.tables) && SingleBit(p) && g in local.tables.assigns
    ensures VerdictOf(Effective(local, above), g, p) == VerdictOf(local.tables, g, p)
  {
    hide PermissionTables.Extend, ReachableCell, SingleBit, CellVerdict, ExtendCell, CellOf;
    var below := if above.Some? then Extend(EMPTY, above.value) else EMPTY;
    ExtendAt(below, local.tables, g);
    assert ReachableCell(CellOf(local.tables, g));
    ExtendVerdict(CellOf(below, g), CellOf(local.tables, g), p);
    AssignsShow(local.tables, g, p);
  }

  lemma AssignsShow(t: Tables, g: string, p: Mask)
    ensures g in t.assigns ==> Decides(CellOf(t, g), p)
  {}

  /** A group that the settings do not mention is decided by the parent if they inherit, and by nothing if not. */
  lemma SilentInherits(local: Permissions, above: Option<Tables>, g: string, p: Mask)
    requires CellOf(local.tables, g) == NO_CELL && SingleBit(p) && (above.Some? ==> Reachable(above.value))
    ensures VerdictOf(Effective(local, above), g, p) ==
            if local.inherited && above.Some? then VerdictOf(above.value, g, p) else Unset
  {
    hide PermissionTables.Extend, ReachableCell, SingleBit, CellVerdict, ExtendCell, CellOf;
    UnsetCell(p);
    if local.inherited {
      var below := if above.Some? then Extend(EMPTY, above.value) else EMPTY;
      ExtendAt(below, local.tables, g);
      CellIdentity(CellOf(below, g));
      EmptyCells();
      if above.Some? {
        EmptyIsIdentity(above.value);
      }
    }
  }

  /**
   Settings that assign one group, given to a manager: the group has exactly the bits assigned, and other
   groups have what the parent gives, if anything is inherited.
   */
  method AssignAndAuthorize(manager: PermissionManager, ghost S: set<PermissionManager>, g: string, m: Mask, p: Mask,
      inherit: bool)
      returns (authorized: bool)
    requires Settled(S) && manager in S && SingleBit(p)
    requires AllReachable(S)
    modifies S`permissions, S`localPermissions
    ensures authorized <==> m & p != 0
    ensures forall h :: h != g ==>
              VerdictOf(manager.permissions.tables, h, p) ==
              if inherit && manager.parent != null then VerdictOf(manager.parent.permissions.tables, h, p) else Unset
  {
    hide PermissionTables.Extend, Settled, Effective, Reachable, VerdictOf, CellOf, SingleBit, Has, Authorized;
    var builder := new PermissionsBuilder();
    builder.Inherit(inherit);
    builder.Assign(g, m);
    var settings := builder.Build();
    manager.SetPermissions(settings, S);
    SettledAt(S, manager);
    ghost var above := AboveTables(manager);
    if above.Some? {
      CachesReachable(S, manager.parent);
    }
    AssignShows(settings.tables, CellOf(EMPTY, g), g, m);
    AssignedDecides(settings, above, g, p);
    forall h | h != g
      ensures VerdictOf(manager.permissions.tables, h, p) ==
              if inherit && manager.parent != null then VerdictOf(manager.parent.permissions.tables, h, p) else Unset
    {
      EmptyCells();
      SilentInherits(settings, above, h, p);
    }
    authorized := manager.IsAuthorized([g], p);
    OneGroup(manager.permissions.tables, g, p);
    HasIsAnd(m, p);
  }

  lemma AssignShows(t: Tables, c: Cell, g: string, m: Mask)
    requires CellOf(t, g) == AssignCell(c, m)
    ensures g in t.assigns
  {}

  lemma HasIsAnd(m: Mask, p: Mask)
    ensures Has(m, p) <==> m & p != 0
  {}

  lemma OneGroup(t: Tables, g: string, p: Mask)
    ensures Authorized(t, [g], p) <==> VerdictOf(t, g, p) == Allowed
  {
    hide CellOf, CellVerdict;
    assert [g][0] == g;
  }

  /** Caches of settings that builders produced are tables that builders could produce. */
  lemma CachesReachable(S: set<PermissionManager>, m: PermissionManager)
    requires Settled(S) && AllReachable(S) && m in S
    ensures Reachable(m.permissions.tables)
  {
    hide Reachable;
    var rank :| Ranked(S, rank);
    CacheIsRecomputed(S, rank, m);
    RecomputedIsCombined(S, rank, m);
    CombinedReachable(ChainOf(S, rank, m));
  }
}
