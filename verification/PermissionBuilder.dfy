/** The permissions builder: masks of groups changed in place, and the three-pass extend. */
module PermissionBuilder {
  import opened PermissionTables

  // ---------- PermissionsBuilderImpl ----------

  class PermissionsBuilder {
    var inherited: bool
    var allowed: Table
    var denied: Table
    var assigns: Table

    ghost function Current(): Tables
      reads this
    {
      Tables(allowed, denied, assigns)
    }

    constructor ()
      ensures Current() == EMPTY && !inherited && Reachable(Current())
    {
      EmptyReachable();
      inherited, allowed, denied, assigns := false, map[], map[], map[];
    }

    method Inherit(inherit: bool)
      modifies this`inherited
      ensures inherited == inherit
    {
      inherited := inherit;
    }

    method Assign(g: string, m: Mask)
      modifies this`allowed, this`denied, this`assigns
      ensures forall h {:trigger CellOf(Current(), h)} ::
        CellOf(Current(), h) ==
        if h == g then AssignCell(CellOf(old(Current()), h), m) else CellOf(old(Current()), h)
      ensures forall h, p {:trigger VerdictOf(Current(), h, p)} :: SingleBit(p) ==>
        VerdictOf(Current(), h, p) ==
        if h == g then (if Has(m, p) then Allowed else Unset) else VerdictOf(old(Current()), h, p)
      ensures old(Reachable(Current())) ==> Reachable(Current())
    {
      hide SingleBit, Has, CellVerdict;
      assigns := assigns[g := m];
      allowed := allowed[g := m];
      denied := denied[g := 0];
      forall h, p | SingleBit(p)
        ensures VerdictOf(Current(), h, p) ==
                if h == g then (if Has(m, p) then Allowed else Unset) else VerdictOf(old(Current()), h, p)
      {
        AssignVerdict(CellOf(old(Current()), h), m, p);
      }
      StepReachable(old(Current()), Current(), g, m);
    }

    method Allow(g: string, m: Mask)
      modifies this`allowed, this`denied
      ensures forall h {:trigger CellOf(Current(), h)} ::
        CellOf(Current(), h) ==
        if h == g then AllowCell(CellOf(old(Current()), h), m) else CellOf(old(Current()), h)
      ensures forall h, p {:trigger VerdictOf(Current(), h, p)} :: SingleBit(p) ==>
        VerdictOf(Current(), h, p) ==
        if h == g then (if Has(m, p) then Allowed else VerdictOf(old(Current()), h, p))
            else VerdictOf(old(Current()), h, p)
      ensures old(Reachable(Current())) ==> Reachable(Current())
    {
      hide Join, Without, SingleBit, Has, CellVerdict;
      var allowMask := Or0(Get(allowed, g));
      var denyMask := Or0(Get(denied, g));
      allowed := allowed[g := Join(allowMask, m)];
      denied := denied[g := Without(denyMask, m)];
      forall h, p | SingleBit(p)
        ensures VerdictOf(Current(), h, p) ==
                if h == g then (if Has(m, p) then Allowed else VerdictOf(old(Current()), h, p))
                else VerdictOf(old(Current()), h, p)
      {
        AllowVerdict(CellOf(old(Current()), h), m, p);
      }
      StepReachable(old(Current()), Current(), g, m);
    }

    method Deny(g: string, m: Mask)
      modifies this`allowed, this`denied
      ensures forall h {:trigger CellOf(Current(), h)} ::
        CellOf(Current(), h) ==
        if h == g then DenyCell(CellOf(old(Current()), h), m) else CellOf(old(Current()), h)
      ensures forall h, p {:trigger VerdictOf(Current(), h, p)} :: SingleBit(p) ==>
        VerdictOf(Current(), h, p) ==
        if h == g then (if Has(m, p) then Denied else VerdictOf(old(Current()), h, p))
            else VerdictOf(old(Current()), h, p)
      ensures old(Reachable(Current())) ==> Reachable(Current())
    {
      hide Join, Without, SingleBit, Has, CellVerdict;
      var allowMask := Or0(Get(allowed, g));
      var denyMask := Or0(Get(denied, g));
      denied := denied[g := Join(denyMask, m)];
      allowed := allowed[g := Without(allowMask, m)];
      forall h, p | SingleBit(p)
        ensures VerdictOf(Current(), h, p) ==
                if h == g then (if Has(m, p) then Denied else VerdictOf(old(Current()), h, p))
                else VerdictOf(old(Current()), h, p)
      {
        DenyVerdict(CellOf(old(Current()), h), m, p);
      }
      StepReachable(old(Current()), Current(), g, m);
    }

    /** extend(): three passes over the other tables, in whatever order their groups come. */
    method Extend(config: Permissions)
      modifies this`allowed, this`denied, this`assigns
      ensures Current() == PermissionTables.Extend(old(Current()), config.tables)
      ensures old(Reachable(Current())) && Reachable(config.tables) ==> Reachable(Current())
    {
      hide AssignCell, AllowCell, DenyCell, CellOf, PermissionTables.Extend, Current, Reachable;
      ghost var e := config.tables;
      ghost var t0 := Current();
      var todo := config.tables.assigns.Keys;
      while todo != {}
        invariant todo <= config.tables.assigns.Keys
        invariant forall h {:trigger CellOf(Current(), h)} :: CellOf(Current(), h) ==
                    if h in e.assigns && h !in todo then AssignCell(CellOf(t0, h), e.assigns[h]) else CellOf(t0, h)
      {
        var g :| g in todo;
        Assign(g, config.tables.assigns[g]);
        todo := todo - {g};
      }
      ghost var t1 := Current();
      todo := config.tables.allowed.Keys;
      while todo != {}
        invariant todo <= config.tables.allowed.Keys
        invariant forall h {:trigger CellOf(Current(), h)} :: CellOf(Current(), h) ==
                    if h in e.allowed && h !in todo then AllowCell(CellOf(t1, h), e.allowed[h]) else CellOf(t1, h)
      {
        var g :| g in todo;
        Allow(g, config.tables.allowed[g]);
        todo := todo - {g};
      }
      ghost var t2 := Current();
      todo := config.tables.denied.Keys;
      while todo != {}
        invariant todo <= config.tables.denied.Keys
        invariant forall h {:trigger CellOf(Current(), h)} :: CellOf(Current(), h) ==
                    if h in e.denied && h !in todo then DenyCell(CellOf(t2, h), e.denied[h]) else CellOf(t2, h)
      {
        var g :| g in todo;
        Deny(g, config.tables.denied[g]);
        todo := todo - {g};
      }
      PassesExtend(t0, t1, t2, Current(), e);
      if Reachable(t0) && Reachable(e) {
        ExtendReachable(t0, e);
      }
    }

    method Build() returns (p: Permissions)
      ensures p == Permissions(inherited, Current())
    {
      p := Permissions(inherited, Tables(allowed, denied, assigns));
    }
  }

  /** A step on one group of reachable tables leaves them reachable. */
  lemma StepReachable(t: Tables, u: Tables, g: string, m: Mask)
    requires forall h {:trigger CellOf(u, h)} :: h != g ==> CellOf(u, h) == CellOf(t, h)
    requires CellOf(u, g) in {AssignCell(CellOf(t, g), m), AllowCell(CellOf(t, g), m), DenyCell(CellOf(t, g), m)}
    ensures Reachable(t) ==> Reachable(u)
  {
    hide AssignCell, AllowCell, DenyCell, ReachableCell, CellOf;
    if Reachable(t) {
      assert ReachableCell(CellOf(t, g));
      CellSteps(CellOf(t, g), m);
      forall h ensures ReachableCell(CellOf(u, h)) {
        assert h != g ==> ReachableCell(CellOf(t, h));
      }
    }
  }

  lemma PassesExtend(t0: Tables, t1: Tables, t2: Tables, t3: Tables, e: Tables)
    requires forall h {:trigger CellOf(t1, h)} ::
      CellOf(t1, h) ==
      if h in e.assigns then AssignCell(CellOf(t0, h), e.assigns[h]) else CellOf(t0, h)
    requires forall h {:trigger CellOf(t2, h)} ::
      CellOf(t2, h) ==
      if h in e.allowed then AllowCell(CellOf(t1, h), e.allowed[h]) else CellOf(t1, h)
    requires forall h {:trigger CellOf(t3, h)} ::
      CellOf(t3, h) ==
      if h in e.denied then DenyCell(CellOf(t2, h), e.denied[h]) else CellOf(t2, h)
    ensures t3 == Extend(t0, e)
  {
    hide AssignCell, AllowCell, DenyCell, PermissionTables.Extend;
    forall h ensures CellOf(t3, h) == CellOf(Extend(t0, e), h) {
      ExtendAt(t0, e, h);
      assert CellOf(t1, h) == if h in e.assigns then AssignCell(CellOf(t0, h), e.assigns[h]) else CellOf(t0, h);
      assert CellOf(t2, h) == if h in e.allowed then AllowCell(CellOf(t1, h), e.allowed[h]) else CellOf(t1, h);
    }
    SameCells(t3, Extend(t0, e));
  }
}
