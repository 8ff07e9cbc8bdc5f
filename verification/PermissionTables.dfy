/**
 Permission tables and the builder that combines them. Masks are the 64-bit Int of the source.
 The algebra of `extend` is worked out on one group at a time and lifted to whole tables.
 */
module PermissionTables {
  import opened Options

  type Mask = bv64
  type Table = map<string, Mask>

  /** The three tables of a permissions object. */
  datatype Tables = Tables(allowed: Table, denied: Table, assigns: Table)

  datatype Permissions = Permissions(inherited: bool, tables: Tables)

  const EMPTY := Tables(map[], map[], map[])

  // ---------- Masks ----------

  function Join(a: Mask, b: Mask): Mask { a | b }

  function Without(a: Mask, b: Mask): Mask { a & !b }

  predicate Apart(a: Mask, d: Mask) { a & d == 0 }

  /** Every bit of s is in a or in d. */
  predicate Covered(s: Mask, a: Mask, d: Mask) { s & !(a | d) == 0 }

  lemma MaskMove(a: Mask, d: Mask, s: Mask, m: Mask)
    requires Apart(a, d) && Covered(s, a, d)
    ensures Apart(Join(a, m), Without(d, m)) && Apart(Without(d, m), Join(a, m))
    ensures Covered(s, Join(a, m), Without(d, m)) && Covered(s, Without(d, m), Join(a, m))
  {
    BitsMove(a, d, s, m);
  }

  lemma BitsMove(a: Mask, d: Mask, s: Mask, m: Mask)
    requires a & d == 0 && s & !(a | d) == 0
    ensures (a | m) & (d & !m) == 0 && (d & !m) & (a | m) == 0
    ensures s & !((a | m) | (d & !m)) == 0 && s & !((d & !m) | (a | m)) == 0
  {}

  lemma MaskSwap(a: Mask, d: Mask, s: Mask)
    ensures Apart(a, d) <==> Apart(d, a)
    ensures Covered(s, a, d) <==> Covered(s, d, a)
  {}

  lemma MaskZero(a: Mask)
    ensures Apart(a, 0) && Apart(0, a) && Covered(a, a, 0) && Covered(0, 0, 0)
    ensures Join(a, 0) == a == Join(0, a) && Without(a, 0) == a && Without(0, a) == 0
  {}

  /** With s, ea and ed of one table: assigning s and replaying ea and ed gives ea and ed. */
  lemma MaskReplay(s: Mask, ea: Mask, ed: Mask)
    requires Apart(ea, ed) && Covered(s, ea, ed)
    ensures Without(Join(s, ea), ed) == ea
  {}

  lemma MaskOrder(a: Mask, ea: Mask, ed: Mask)
    requires Apart(ea, ed)
    ensures Without(Join(a, ea), ed) == Join(Without(a, ed), ea)
  {
    hide Join, Without;
    OrderAgree(a, ea, ed, Join(a, ea), Without(a, ed));
  }

  lemma OrderAgree(a: Mask, ea: Mask, ed: Mask, x: Mask, y: Mask)
    requires Apart(ea, ed) && x == Join(a, ea) && y == Without(a, ed)
    ensures Without(x, ed) == Join(y, ea)
  {}

  // ---------- One group ----------

  /** What the tables hold for one group: absent entries are told apart from zero masks. */
  datatype Cell = Cell(allowed: Option<Mask>, denied: Option<Mask>, assigns: Option<Mask>)

  const NO_CELL := Cell(None, None, None)

  /** operator[] and getOrDefault(group, 0) */
  function Or0(m: Option<Mask>): Mask
  {
    if m.Some? then m.value else 0
  }

  function AssignCell(c: Cell, m: Mask): Cell { Cell(Some(m), Some(0), Some(m)) }

  function AllowCell(c: Cell, m: Mask): Cell
  {
    Cell(Some(Join(Or0(c.allowed), m)), Some(Without(Or0(c.denied), m)), c.assigns)
  }

  function DenyCell(c: Cell, m: Mask): Cell
  {
    Cell(Some(Without(Or0(c.allowed), m)), Some(Join(Or0(c.denied), m)), c.assigns)
  }

  /** extend() on one group: assign, allow and deny, as far as the other table has entries. */
  function ExtendCell(b: Cell, e: Cell): Cell
  {
    var c1 := if e.assigns.Some? then AssignCell(b, e.assigns.value) else b;
    var c2 := if e.allowed.Some? then AllowCell(c1, e.allowed.value) else c1;
    if e.denied.Some? then DenyCell(c2, e.denied.value) else c2
  }

  /** Nothing is both allowed and denied, and what was assigned is still decided one way or the other. */
  predicate ReachableCell(c: Cell)
  {
    && (c.allowed.Some? <==> c.denied.Some?)
    && (c.assigns.Some? ==> c.allowed.Some?)
    && Apart(Or0(c.allowed), Or0(c.denied))
    && Covered(Or0(c.assigns), Or0(c.allowed), Or0(c.denied))
  }

  lemma CellSteps(c: Cell, m: Mask)
    requires ReachableCell(c)
    ensures ReachableCell(AssignCell(c, m)) && ReachableCell(AllowCell(c, m)) && ReachableCell(DenyCell(c, m))
  {
    hide Join, Without, Apart, Covered;
    var (a, d, s) := (Or0(c.allowed), Or0(c.denied), Or0(c.assigns));
    MaskMove(a, d, s, m);
    MaskSwap(a, d, s);
    MaskMove(d, a, s, m);
    MaskZero(m);
  }

  lemma ExtendCellReachable(b: Cell, e: Cell)
    requires ReachableCell(b) && ReachableCell(e)
    ensures ReachableCell(ExtendCell(b, e))
  {
    hide ReachableCell, AssignCell, AllowCell, DenyCell;
    var c1 := if e.assigns.Some? then AssignCell(b, e.assigns.value) else b;
    var c2 := if e.allowed.Some? then AllowCell(c1, e.allowed.value) else c1;
    CellSteps(b, Or0(e.assigns));
    CellSteps(c1, Or0(e.allowed));
    CellSteps(c2, Or0(e.denied));
  }

  /** Extending by a reachable cell, bit by bit: assigned groups are replaced, others overridden. */
  lemma ExtendCellMasks(b: Cell, e: Cell)
    requires ReachableCell(e)
    ensures e.assigns.Some? ==> ExtendCell(b, e) == e
    ensures e.assigns.None? && e.allowed.None? ==> ExtendCell(b, e) == b
    ensures e.assigns.None? && e.allowed.Some? ==>
              ExtendCell(b, e) == Cell(Some(Override(Or0(b.allowed), e.denied.value, e.allowed.value)),
                                       Some(Override(Or0(b.denied), e.allowed.value, e.denied.value)),
                                       b.assigns)
  {
    hide Join, Without, Apart, Covered;
    var (a, d, s) := (Or0(e.allowed), Or0(e.denied), Or0(e.assigns));
    MaskReplay(s, a, d);
    MaskZero(a);
    MaskZero(d);
    MaskOrder(Or0(b.allowed), a, d);
  }

  lemma ExtendCellAssociative(a: Cell, b: Cell, c: Cell)
    requires ReachableCell(b) && ReachableCell(c)
    ensures ExtendCell(ExtendCell(a, b), c) == ExtendCell(a, ExtendCell(b, c))
  {
    hide ExtendCell, Join, Without, Apart, Covered, Override;
    var bc := ExtendCell(b, c);
    ExtendCellReachable(b, c);
    ExtendCellMasks(b, c);
    ExtendCellMasks(a, b);
    ExtendCellMasks(ExtendCell(a, b), c);
    ExtendCellMasks(a, bc);
    var (ba, bd, ca, cd) := (Or0(b.allowed), Or0(b.denied), Or0(c.allowed), Or0(c.denied));
    OverrideZero(ca, cd);
    OverrideZero(cd, ca);
    if c.assigns.None? && c.allowed.Some? && b.assigns.None? && b.allowed.Some? {
      MaskOverrides(Or0(a.allowed), ba, bd, ca, cd);
      MaskOverrides(Or0(a.denied), bd, ba, cd, ca);
    }
  }

  /** Overriding twice is overriding once by the override. */
  lemma MaskOverrides(a: Mask, ba: Mask, bd: Mask, ca: Mask, cd: Mask)
    ensures Override(Override(a, bd, ba), cd, ca) == Override(a, Override(bd, ca, cd), Override(ba, cd, ca))
  {
    hide Override;
    var (x, y, z) := (Override(a, bd, ba), Override(bd, ca, cd), Override(ba, cd, ca));
    OverrideBits(a, bd, ba);
    OverrideBits(bd, ca, cd);
    OverrideBits(ba, cd, ca);
    OverrideBits(x, cd, ca);
    OverrideBits(a, y, z);
    BitsAgree(a, ba, bd, ca, cd, x, y, z, Override(x, cd, ca), Override(a, y, z));
  }

  lemma OverrideBits(a: Mask, remove: Mask, add: Mask)
    ensures Override(a, remove, add) == (a & !remove) | add
  {}

  lemma BitsAgree(a: Mask, ba: Mask, bd: Mask, ca: Mask, cd: Mask, x: Mask, y: Mask, z: Mask, u: Mask, v: Mask)
    requires x == (a & !bd) | ba && y == (bd & !ca) | cd && z == (ba & !cd) | ca
    requires u == (x & !cd) | ca && v == (a & !y) | z
    ensures u == v
  {}

  lemma OverrideZero(remove: Mask, add: Mask)
    ensures Override(0, remove, add) == add
  {}

  /** Bits of `add` set, bits of `remove` cleared. */
  function Override(a: Mask, remove: Mask, add: Mask): Mask { Join(Without(a, remove), add) }

  // ---------- Whole tables ----------

  function Get(t: Table, g: string): Option<Mask>
  {
    if g in t then Some(t[g]) else None
  }

  function CellOf(t: Tables, g: string): Cell
  {
    Cell(Get(t.allowed, g), Get(t.denied, g), Get(t.assigns, g))
  }

  function Groups(t: Tables): set<string>
  {
    t.allowed.Keys + t.denied.Keys + t.assigns.Keys
  }

  /** extend() on whole tables: every group on its own. */
  function Extend(b: Tables, e: Tables): Tables
  {
    var keys := Groups(b) + Groups(e);
    Tables(map g | g in keys
        && ExtendCell(CellOf(b, g), CellOf(e, g)).allowed.Some? :: ExtendCell(CellOf(b, g), CellOf(e, g)).allowed.value,
           map g | g in keys && ExtendCell(CellOf(b, g), CellOf(e, g)).denied.Some? ::
               ExtendCell(CellOf(b, g), CellOf(e, g)).denied.value,
           map g | g in keys && ExtendCell(CellOf(b, g), CellOf(e, g)).assigns.Some? ::
               ExtendCell(CellOf(b, g), CellOf(e, g)).assigns.value)
  }

  lemma ExtendAt(b: Tables, e: Tables, g: string)
    ensures CellOf(Extend(b, e), g) == ExtendCell(CellOf(b, g), CellOf(e, g))
  {
    hide AssignCell, AllowCell, DenyCell;
  }

  lemma SameCells(x: Tables, y: Tables)
    requires forall g {:trigger CellOf(x, g)} :: CellOf(x, g) == CellOf(y, g)
    ensures x == y
  {
    forall g
      ensures g in x.allowed <==> g in y.allowed
      ensures g in x.denied <==> g in y.denied
      ensures g in x.assigns <==> g in y.assigns
    {
      assert CellOf(x, g) == CellOf(y, g);
    }
    forall g | g in x.allowed ensures x.allowed[g] == y.allowed[g] {
      assert CellOf(x, g) == CellOf(y, g);
    }
    forall g | g in x.denied ensures x.denied[g] == y.denied[g] {
      assert CellOf(x, g) == CellOf(y, g);
    }
    forall g | g in x.assigns ensures x.assigns[g] == y.assigns[g] {
      assert CellOf(x, g) == CellOf(y, g);
    }
  }

  /** Tables a builder can produce. */
  ghost predicate Reachable(t: Tables)
  {
    forall g {:trigger CellOf(t, g)} :: ReachableCell(CellOf(t, g))
  }

  lemma EmptyReachable()
    ensures Reachable(EMPTY)
  {
    MaskZero(0);
  }

  lemma ExtendReachable(b: Tables, e: Tables)
    requires Reachable(b) && Reachable(e)
    ensures Reachable(Extend(b, e))
  {
    hide Extend, ExtendCell, ReachableCell, CellOf;
    forall g ensures ReachableCell(CellOf(Extend(b, e), g)) {
      ExtendAt(b, e, g);
      ExtendCellReachable(CellOf(b, g), CellOf(e, g));
    }
  }

  /** Extending is associative. */
  lemma ExtendAssociative(a: Tables, b: Tables, c: Tables)
    requires Reachable(b) && Reachable(c)
    ensures Extend(Extend(a, b), c) == Extend(a, Extend(b, c))
  {
    hide Extend, ExtendCell, ReachableCell, CellOf;
    forall g ensures CellOf(Extend(Extend(a, b), c), g) == CellOf(Extend(a, Extend(b, c)), g) {
      ExtendAt(a, b, g);
      ExtendAt(Extend(a, b), c, g);
      ExtendAt(b, c, g);
      ExtendAt(a, Extend(b, c), g);
      assert ReachableCell(CellOf(b, g)) && ReachableCell(CellOf(c, g));
      ExtendCellAssociative(CellOf(a, g), CellOf(b, g), CellOf(c, g));
    }
    SameCells(Extend(Extend(a, b), c), Extend(a, Extend(b, c)));
  }

  /** The empty tables change nothing, on either side. */
  lemma EmptyIsIdentity(t: Tables)
    ensures Extend(t, EMPTY) == t
    ensures Reachable(t) ==> Extend(EMPTY, t) == t
  {
    hide Extend, ExtendCell, ReachableCell, CellOf;
    EmptyCells();
    forall g ensures CellOf(Extend(t, EMPTY), g) == CellOf(t, g) {
      ExtendAt(t, EMPTY, g);
      CellIdentity(CellOf(t, g));
    }
    SameCells(Extend(t, EMPTY), t);
    if Reachable(t) {
      forall g ensures CellOf(Extend(EMPTY, t), g) == CellOf(t, g) {
        ExtendAt(EMPTY, t, g);
        assert ReachableCell(CellOf(t, g));
        CellIdentity(CellOf(t, g));
      }
      SameCells(Extend(EMPTY, t), t);
    }
  }

  lemma EmptyCells()
    ensures forall g {:trigger CellOf(EMPTY, g)} :: CellOf(EMPTY, g) == NO_CELL
  {}

  lemma CellIdentity(c: Cell)
    ensures ExtendCell(c, NO_CELL) == c
    ensures ReachableCell(c) ==> ExtendCell(NO_CELL, c) == c
  {
    hide Join, Without, Apart, Covered;
    if ReachableCell(c) {
      ExtendCellMasks(NO_CELL, c);
      OverrideZero(Or0(c.allowed), Or0(c.denied));
      OverrideZero(Or0(c.denied), Or0(c.allowed));
    }
  }

  // ---------- Which ancestor decides ----------

  /** A permission is a single bit. */
  predicate SingleBit(p: Mask) { p != 0 && p & (p - 1) == 0 }

  predicate Has(m: Mask, p: Mask) { m & p != 0 }

  datatype Verdict = Allowed | Denied | Unset

  function CellVerdict(c: Cell, p: Mask): Verdict
  {
    if Has(Or0(c.denied), p) then Denied else if Has(Or0(c.allowed), p) then Allowed else Unset
  }

  /** What the tables say about one bit for one group. */
  function VerdictOf(t: Tables, g: string, p: Mask): Verdict { CellVerdict(CellOf(t, g), p) }

  lemma HasJoin(a: Mask, m: Mask, p: Mask)
    requires SingleBit(p)
    ensures Has(Join(a, m), p) <==> Has(a, p) || Has(m, p)
    ensures Has(Without(a, m), p) <==> Has(a, p) && !Has(m, p)
  {
    BitsJoin(a, m, p);
  }

  lemma BitsJoin(a: Mask, m: Mask, p: Mask)
    requires SingleBit(p)
    ensures (a | m) & p != 0 <==> a & p != 0 || m & p != 0
    ensures (a & !m) & p != 0 <==> a & p != 0 && m & p == 0
  {}

  /** Assigning decides every bit of the group: the bits given are allowed, and none is denied. */
  lemma AssignVerdict(c: Cell, m: Mask, p: Mask)
    ensures CellVerdict(AssignCell(c, m), p) == if Has(m, p) then Allowed else Unset
  {
    HasZero(p);
  }

  /** Allowing decides the bits given, and no other. */
  lemma AllowVerdict(c: Cell, m: Mask, p: Mask)
    requires SingleBit(p)
    ensures CellVerdict(AllowCell(c, m), p) == if Has(m, p) then Allowed else CellVerdict(c, p)
  {
    hide Join, Without, Has, SingleBit;
    HasJoin(Or0(c.allowed), m, p);
    HasJoin(Or0(c.denied), m, p);
  }

  /** And so does denying. */
  lemma DenyVerdict(c: Cell, m: Mask, p: Mask)
    requires SingleBit(p)
    ensures CellVerdict(DenyCell(c, m), p) == if Has(m, p) then Denied else CellVerdict(c, p)
  {
    hide Join, Without, Has, SingleBit;
    HasJoin(Or0(c.allowed), m, p);
    HasJoin(Or0(c.denied), m, p);
  }

  /** The table says something about the bit: it sets it, or it assigned the group as a whole. */
  predicate Decides(c: Cell, p: Mask)
  {
    c.assigns.Some? || Has(Or0(c.allowed), p) || Has(Or0(c.denied), p)
  }

  lemma BitsApart(a: Mask, d: Mask, p: Mask)
    requires a & d == 0 && SingleBit(p)
    ensures a & p == 0 || d & p == 0
  {}

  lemma BitsOverride(a: Mask, remove: Mask, add: Mask, p: Mask)
    requires SingleBit(p)
    ensures ((a & !remove) | add) & p != 0 <==> add & p != 0 || (a & p != 0 && remove & p == 0)
  {}

  lemma HasOverride(a: Mask, remove: Mask, add: Mask, p: Mask)
    requires SingleBit(p)
    ensures Has(Override(a, remove, add), p) <==> Has(add, p) || (Has(a, p) && !Has(remove, p))
  {
    hide Join, Without, SingleBit;
    OverrideBits(a, remove, add);
    BitsOverride(a, remove, add, p);
  }

  lemma HasApart(a: Mask, d: Mask, p: Mask)
    requires Apart(a, d) && SingleBit(p)
    ensures !Has(a, p) || !Has(d, p)
  {
    BitsApart(a, d, p);
  }

  lemma HasZero(p: Mask)
    ensures !Has(0, p)
  {}

  /** One extension: the later table decides if it can, otherwise the earlier verdict stands. */
  lemma ExtendVerdict(b: Cell, e: Cell, p: Mask)
    requires ReachableCell(e) && SingleBit(p)
    ensures CellVerdict(ExtendCell(b, e), p) == if Decides(e, p) then CellVerdict(e, p) else CellVerdict(b, p)
  {
    hide ExtendCell, Join, Without, Apart, Covered, SingleBit, Has, Override;
    ExtendCellMasks(b, e);
    HasZero(p);
    if e.assigns.None? && e.allowed.Some? {
      HasOverride(Or0(b.allowed), e.denied.value, e.allowed.value, p);
      HasOverride(Or0(b.denied), e.allowed.value, e.denied.value, p);
      HasApart(e.allowed.value, e.denied.value, p);
    }
  }

  /** The tables from the outermost ancestor (first) to the object itself (last), combined. */
  ghost function Combined(chain: seq<Tables>): Tables
  {
    if chain == [] then EMPTY else Extend(Combined(chain[..|chain| - 1]), chain[|chain| - 1])
  }

  /** The verdict of the nearest table of the chain that decides the bit for the group. */
  ghost function NearestVerdict(chain: seq<Tables>, g: string, p: Mask): Verdict
  {
    if chain == [] then Unset
    else if Decides(CellOf(chain[|chain| - 1], g), p) then CellVerdict(CellOf(chain[|chain| - 1], g), p)
    else NearestVerdict(chain[..|chain| - 1], g, p)
  }

  lemma {:induction false} CombinedVerdict(chain: seq<Tables>, g: string, p: Mask)
    requires forall j :: 0 <= j < |chain| ==> Reachable(chain[j])
    requires SingleBit(p)
    ensures CellVerdict(CellOf(Combined(chain), g), p) == NearestVerdict(chain, g, p)
  {
    hide Extend, ExtendCell, ReachableCell, CellOf, SingleBit, Decides, CellVerdict;
    if chain == [] {
      EmptyCells();
      UnsetCell(p);
    } else {
      var front, last := chain[..|chain| - 1], chain[|chain| - 1];
      CombinedVerdict(front, g, p);
      ExtendAt(Combined(front), last, g);
      assert Reachable(last);
      assert ReachableCell(CellOf(last, g));
      ExtendVerdict(CellOf(Combined(front), g), CellOf(last, g), p);
    }
  }

  /** No table of the chain from index i on decides the bit. */
  ghost predicate Silent(chain: seq<Tables>, i: nat, g: string, p: Mask)
  {
    forall j :: i <= j < |chain| ==> !Decides(CellOf(chain[j], g), p)
  }

  /** The effective verdict on a bit is that of the nearest table that decides it; Unset if none does. */
  lemma NearestDecides(chain: seq<Tables>, i: nat, g: string, p: Mask)
    requires forall j :: 0 <= j < |chain| ==> Reachable(chain[j])
    requires SingleBit(p) && i <= |chain| && Silent(chain, i, g, p)
    requires i > 0 ==> Decides(CellOf(chain[i - 1], g), p)
    ensures CellVerdict(CellOf(Combined(chain), g), p) ==
            if i == 0 then Unset else CellVerdict(CellOf(chain[i - 1], g), p)
  {
    hide Reachable, SingleBit, Decides, CellVerdict, CellOf, Combined;
    CombinedVerdict(chain, g, p);
    NearestAt(chain, i, g, p);
  }

  lemma {:induction false} NearestAt(chain: seq<Tables>, i: nat, g: string, p: Mask)
    requires i <= |chain| && Silent(chain, i, g, p) && (i > 0 ==> Decides(CellOf(chain[i - 1], g), p))
    ensures NearestVerdict(chain, g, p) == if i == 0 then Unset else CellVerdict(CellOf(chain[i - 1], g), p)
    decreases |chain|
  {
    hide Decides, CellVerdict, CellOf;
    if i < |chain| {
      assert !Decides(CellOf(chain[|chain| - 1], g), p);
      NearestAt(chain[..|chain| - 1], i, g, p);
    }
  }

  lemma UnsetCell(p: Mask)
    ensures CellVerdict(NO_CELL, p) == Unset
  {
    HasZero(p);
  }

  lemma {:induction false} CombinedReachable(chain: seq<Tables>)
    requires forall j :: 0 <= j < |chain| ==> Reachable(chain[j])
    ensures Reachable(Combined(chain))
  {
    hide Extend, Reachable;
    if chain == [] {
      EmptyReachable();
    } else {
      CombinedReachable(chain[..|chain| - 1]);
      ExtendReachable(Combined(chain[..|chain| - 1]), chain[|chain| - 1]);
    }
  }
}
