/**
 Property object classes: looking a property up through the parents, and listing the properties with
 the inherited ones first or in a custom order. Classes are registered by name with a type manager.
 */
module PropertyClass {
  import opened Options

  datatype Outcome<T> = Ok(value: T) | NotFound | Failed

  datatype Property = Property(name: string, body: int)

  /** props is in the order of insertion, customOrder may name anything, also twice. */
  datatype Class = Class(name: string, parent: Option<string>, props: seq<Property>, customOrder: seq<string>)

  type Types = map<string, Class>

  // ---------- Lists of properties ----------

  ghost predicate Distinct(ps: seq<Property>)
  {
    forall i, j :: 0 <= i < j < |ps| ==> ps[i].name != ps[j].name
  }

  /** The last property with the name. */
  function Last(ps: seq<Property>, n: string): Option<Property>
  {
    if ps == [] then None
    else if ps[|ps| - 1].name == n then Some(ps[|ps| - 1])
    else Last(ps[..|ps| - 1], n)
  }

  lemma {:induction false} LastAppend(a: seq<Property>, b: seq<Property>, n: string)
    ensures Last(a + b, n) == if Last(b, n).Some? then Last(b, n) else Last(a, n)
  {
    if b == [] {
      assert a + b == a;
    } else {
      assert (a + b)[..|a + b| - 1] == a + b[..|b| - 1];
      LastAppend(a, b[..|b| - 1], n);
    }
  }

  lemma {:induction false} LastMember(ps: seq<Property>, n: string)
    ensures Last(ps, n).Some? ==> Last(ps, n).value in ps && Last(ps, n).value.name == n
    ensures Last(ps, n).None? <==> forall p :: p in ps ==> p.name != n
  {
    if ps != [] {
      var front := ps[..|ps| - 1];
      LastMember(front, n);
      assert forall p :: p in ps <==> p in front || p == ps[|ps| - 1];
    }
  }

  lemma SameNameSame(ps: seq<Property>, p: Property, q: Property)
    requires Distinct(ps) && p in ps && q in ps && p.name == q.name
    ensures p == q
  {
    var i :| 0 <= i < |ps| && ps[i] == p;
    var j :| 0 <= j < |ps| && ps[j] == q;
    assert i == j;
  }

  /** In lists without repeated names only membership matters. */
  lemma SameLast(a: seq<Property>, b: seq<Property>, n: string)
    requires Distinct(a) && Distinct(b) && forall p :: p in a <==> p in b
    ensures Last(a, n) == Last(b, n)
  {
    LastMember(a, n);
    LastMember(b, n);
    if Last(a, n).Some? && Last(b, n).Some? {
      SameNameSame(a, Last(a, n).value, Last(b, n).value);
    }
  }

  // ---------- The ordered map ----------

  /** Where the name is, or the length. */
  function Find(m: seq<Property>, n: string): (k: nat)
    ensures k <= |m| && (k < |m| ==> m[k].name == n) && forall i :: 0 <= i < k ==> m[i].name != n
  {
    if m == [] then 0 else if m[0].name == n then 0 else 1 + Find(m[1..], n)
  }

  /** insert_or_assign: a known name keeps its place. */
  function Assign(m: seq<Property>, p: Property): seq<Property>
  {
    var k := Find(m, p.name);
    if k < |m| then m[k := p] else m + [p]
  }

  function Erase(m: seq<Property>, n: string): seq<Property>
  {
    var k := Find(m, n);
    if k < |m| then m[..k] + m[k + 1..] else m
  }

  function Lookup(ps: seq<Property>): seq<Property>
  {
    if ps == [] then [] else Assign(Lookup(ps[..|ps| - 1]), ps[|ps| - 1])
  }

  lemma AssignLast(m: seq<Property>, p: Property, n: string)
    requires Distinct(m)
    ensures Distinct(Assign(m, p)) && Last(Assign(m, p), n) == if n == p.name then Some(p) else Last(m, n)
  {
    var k, a := Find(m, p.name), Assign(m, p);
    assert Distinct(a);
    LastMember(a, n);
    LastMember(m, n);
    assert p in a by { assert a[k] == p; }
    if n == p.name {
      SameNameSame(a, Last(a, n).value, p);
    } else {
      forall q: Property | q.name == n ensures q in a <==> q in m {
        if q in m {
          var i :| 0 <= i < |m| && m[i] == q;
          assert a[i] == q;
        }
      }
      if Last(a, n).Some? && Last(m, n).Some? {
        SameNameSame(m, Last(a, n).value, Last(m, n).value);
      }
    }
  }

  /** The map holds each name once, with the property that came last. */
  lemma {:induction false} LookupLast(ps: seq<Property>, n: string)
    ensures Distinct(Lookup(ps)) && Last(Lookup(ps), n) == Last(ps, n)
  {
    if ps != [] {
      LookupLast(ps[..|ps| - 1], n);
      AssignLast(Lookup(ps[..|ps| - 1]), ps[|ps| - 1], n);
    }
  }

  lemma EraseMembers(m: seq<Property>, n: string)
    requires Distinct(m)
    ensures Distinct(Erase(m, n)) && forall p :: p in Erase(m, n) <==> p in m && p.name != n
  {
    var k, e := Find(m, n), Erase(m, n);
    forall p ensures p in e <==> p in m && p.name != n {
      if p in m && p.name != n {
        var i :| 0 <= i < |m| && m[i] == p;
        assert e[if i < k then i else i - 1] == p;
      }
      if p in e && k < |m| {
        var i :| 0 <= i < |e| && e[i] == p;
        assert e[i] == m[if i < k then i else i + 1];
      }
    }
  }

  // ---------- Custom order ----------

  /** The listed names that are there, each taken out as it is listed; then the rest. */
  function Arranged(m: seq<Property>, order: seq<string>): seq<Property>
    decreases |order|
  {
    if order == [] then m
    else
      var k := Find(m, order[0]);
      if k < |m| then [m[k]] + Arranged(Erase(m, order[0]), order[1..]) else Arranged(m, order[1..])
  }

  /** Nothing is lost or doubled by arranging. */
  lemma {:induction false} ArrangedMembers(m: seq<Property>, order: seq<string>)
    requires Distinct(m)
    ensures Distinct(Arranged(m, order)) && forall p :: p in Arranged(m, order) <==> p in m
    decreases |order|
  {
    hide Erase;
    if order != [] {
      var k := Find(m, order[0]);
      if k < |m| {
        EraseMembers(m, order[0]);
        ArrangedMembers(Erase(m, order[0]), order[1..]);
        var rest := Arranged(Erase(m, order[0]), order[1..]);
        forall p ensures p in [m[k]] + rest <==> p in m {
          if p in m && p.name == order[0] { SameNameSame(m, p, m[k]); }
        }
        assert forall i :: 0 <= i < |rest| ==> rest[i] in Erase(m, order[0]);
      } else {
        ArrangedMembers(m, order[1..]);
      }
    }
  }

  function Names(ps: seq<Property>): set<string>
  {
    set p | p in ps :: p.name
  }

  /** The listed names among those given, each at its first mention. */
  function Listed(names: set<string>, order: seq<string>): seq<string>
    decreases |order|
  {
    if order == [] then []
    else if order[0] in names then [order[0]] + Listed(names - {order[0]}, order[1..])
    else Listed(names, order[1..])
  }

  /** An arranged list begins with the listed names, in the order of the listing. */
  lemma {:induction false} ArrangedPrefix(m: seq<Property>, order: seq<string>)
    requires Distinct(m)
    ensures var l := Listed(Names(m), order);
            |l| <= |Arranged(m, order)| && forall i :: 0 <= i < |l| ==> Arranged(m, order)[i].name == l[i]
    decreases |order|
  {
    hide Erase;
    if order != [] {
      var k := Find(m, order[0]);
      if k < |m| {
        assert m[k] in m;
        EraseMembers(m, order[0]);
        assert Names(Erase(m, order[0])) == Names(m) - {order[0]};
        ArrangedPrefix(Erase(m, order[0]), order[1..]);
      } else {
        assert order[0] !in Names(m);
        ArrangedPrefix(m, order[1..]);
      }
    }
  }

  /** The properties with other names, in their order. */
  function Without(m: seq<Property>, names: set<string>): seq<Property>
  {
    if m == [] then []
    else (if m[0].name in names then [] else [m[0]]) + Without(m[1..], names)
  }

  lemma {:induction false} WithoutTwice(m: seq<Property>, a: set<string>, b: set<string>)
    ensures Without(Without(m, a), b) == Without(m, a + b)
  {
    if m != [] {
      WithoutTwice(m[1..], a, b);
      if m[0].name in a {
        assert Without(m, a) == Without(m[1..], a);
      } else {
        assert Without(m, a)[1..] == Without(m[1..], a);
      }
    }
  }

  lemma {:induction false} WithoutAbsent(m: seq<Property>, names: set<string>, n: string)
    requires Find(m, n) == |m|
    ensures Without(m, names + {n}) == Without(m, names) && Without(m, {}) == m
  {
    if m != [] {
      WithoutAbsent(m[1..], names, n);
    }
  }

  lemma EraseStep(m: seq<Property>, n: string)
    ensures Erase(m, n) == if m == [] then [] else if m[0].name == n then m[1..] else [m[0]] + Erase(m[1..], n)
  {
    var k := Find(m, n);
    if 0 < k < |m| {
      assert m[..k] == [m[0]] + m[1..][..k - 1];
    }
  }

  lemma DistinctTail(m: seq<Property>)
    requires Distinct(m) && m != []
    ensures Distinct(m[1..]) && Find(m[1..], m[0].name) == |m[1..]|
  {
    forall i | 0 <= i < |m[1..]| ensures m[1..][i].name != m[0].name {
      assert m[1..][i] == m[i + 1];
    }
  }

  lemma {:induction false} EraseIsWithout(m: seq<Property>, n: string)
    requires Distinct(m)
    ensures Erase(m, n) == Without(m, {n})
  {
    hide Erase, Find, Distinct;
    EraseStep(m, n);
    if m != [] {
      DistinctTail(m);
      if m[0].name == n {
        WithoutAbsent(m[1..], {}, n);
        assert {} + {n} == {n};
      } else {
        EraseIsWithout(m[1..], n);
      }
    }
  }

  function Mentioned(order: seq<string>): set<string>
  {
    set n | n in order
  }

  /** What is not mentioned follows, in the order of the map. */
  lemma {:induction false} ArrangedRest(m: seq<Property>, order: seq<string>)
    requires Distinct(m)
    ensures var l := Listed(Names(m), order);
            |l| <= |Arranged(m, order)| && Arranged(m, order)[|l|..] == Without(m, Mentioned(order))
    decreases |order|
  {
    hide Erase, Without;
    if order == [] {
      NoneWithout(m);
    } else {
      var k, rest := Find(m, order[0]), order[1..];
      assert Mentioned(order) == {order[0]} + Mentioned(rest) == Mentioned(rest) + {order[0]};
      if k < |m| {
        assert m[k] in m;
        EraseMembers(m, order[0]);
        assert Names(Erase(m, order[0])) == Names(m) - {order[0]};
        ArrangedRest(Erase(m, order[0]), rest);
        EraseIsWithout(m, order[0]);
        WithoutTwice(m, {order[0]}, Mentioned(rest));
      } else {
        assert order[0] !in Names(m);
        ArrangedRest(m, rest);
        WithoutAbsent(m, Mentioned(rest), order[0]);
      }
    }
  }

  lemma {:induction false} NoneWithout(m: seq<Property>)
    ensures Without(m, Mentioned([])) == m
  {
    if m != [] {
      NoneWithout(m[1..]);
    }
  }

  // ---------- Hierarchies ----------

  /** No class is its own ancestor, and each keeps a name once. */
  ghost predicate Hierarchy(types: Types, rank: map<string, nat>)
  {
    && types.Keys <= rank.Keys
    && (forall k :: k in types ==> Distinct(types[k].props))
    && (forall k :: k in types && types[k].parent.Some? && types[k].parent.value in types ==>
        rank[types[k].parent.value] < rank[k])
  }

  ghost function Height(types: Types, rank: map<string, nat>, c: Class): nat
    requires Hierarchy(types, rank)
  {
    if c.parent.Some? && c.parent.value in types then rank[c.parent.value] + 1 else 0
  }

  lemma ParentLower(types: Types, rank: map<string, nat>, c: Class)
    requires Hierarchy(types, rank) && c.parent.Some? && c.parent.value in types
    ensures Height(types, rank, types[c.parent.value]) < Height(types, rank, c)
  {}

  /** getProperty: the own property, or the parent's; Failed for a parent that is not registered. */
  function GetProperty(types: Types, ghost rank: map<string, nat>, c: Class, n: string): Outcome<Property>
    requires Hierarchy(types, rank)
    decreases Height(types, rank, c)
  {
    var k := Find(c.props, n);
    if k < |c.props| then Ok(c.props[k])
    else if c.parent.None? then NotFound
    else if c.parent.value !in types then Failed
    else
      ParentLower(types, rank, c);
      GetProperty(types, rank, types[c.parent.value], n)
  }

  /** hasProperty */
  function HasProperty(types: Types, ghost rank: map<string, nat>, c: Class, n: string): Outcome<bool>
    requires Hierarchy(types, rank)
    decreases Height(types, rank, c)
  {
    if Find(c.props, n) < |c.props| then Ok(true)
    else if c.parent.None? then Ok(false)
    else if c.parent.value !in types then Failed
    else
      ParentLower(types, rank, c);
      HasProperty(types, rank, types[c.parent.value], n)
  }

  function Listing(all: seq<Property>, order: seq<string>): seq<Property>
  {
    if order == [] then all else Arranged(Lookup(all), order)
  }

  /** The properties with the inherited ones; Failed if an ancestor is not registered. */
  ghost function Visible(types: Types, rank: map<string, nat>, c: Class): Outcome<seq<Property>>
    requires Hierarchy(types, rank)
    decreases Height(types, rank, c)
  {
    var inherited := Inherited(types, rank, c);
    if inherited.Ok? then Ok(Listing(inherited.value + c.props, c.customOrder)) else Failed
  }

  ghost function Inherited(types: Types, rank: map<string, nat>, c: Class): Outcome<seq<Property>>
    requires Hierarchy(types, rank)
    decreases Height(types, rank, c), 0
  {
    if c.parent.None? then Ok([])
    else if c.parent.value !in types then Failed
    else
      ParentLower(types, rank, c);
      Visible(types, rank, types[c.parent.value])
  }

  /** All ancestors are registered. */
  ghost predicate Complete(types: Types, rank: map<string, nat>, c: Class)
    requires Hierarchy(types, rank)
    decreases Height(types, rank, c)
  {
    c.parent.Some? ==>
      c.parent.value in types && (ParentLower(types, rank, c); Complete(types, rank, types[c.parent.value]))
  }

  /** Without that the listing fails, and a lookup never ends with "not found". */
  lemma {:induction false} IncompleteFails(types: Types, rank: map<string, nat>, c: Class, n: string)
    requires Hierarchy(types, rank)
    ensures Visible(types, rank, c).Ok? <==> Complete(types, rank, c)
    ensures !Complete(types, rank, c) ==>
              Visible(types, rank, c) == Failed && GetProperty(types, rank, c, n) != NotFound &&
              HasProperty(types, rank, c, n) != Ok(false)
    decreases Height(types, rank, c)
  {
    hide Listing;
    if c.parent.Some? && c.parent.value in types {
      ParentLower(types, rank, c);
      IncompleteFails(types, rank, types[c.parent.value], n);
    }
  }

  /** Ordering and merging keep, for each name, the property that came last. */
  lemma ListingLast(all: seq<Property>, order: seq<string>, n: string)
    ensures Last(Listing(all, order), n) == Last(all, n)
  {
    if order != [] {
      LookupLast(all, n);
      ArrangedMembers(Lookup(all), order);
      SameLast(Arranged(Lookup(all), order), Lookup(all), n);
    }
  }

  lemma OwnLast(ps: seq<Property>, n: string)
    requires Distinct(ps)
    ensures var k := Find(ps, n); Last(ps, n) == if k < |ps| then Some(ps[k]) else None
  {
    var k := Find(ps, n);
    LastMember(ps, n);
    if k < |ps| {
      assert ps[k] in ps;
      SameNameSame(ps, ps[k], Last(ps, n).value);
    }
  }

  /** The lookup finds the last of the listed properties with the name, and exactly the listed names. */
  lemma {:induction false} LookupMatchesListing(types: Types, rank: map<string, nat>, c: Class, n: string)
    requires Hierarchy(types, rank) && Distinct(c.props) && Complete(types, rank, c)
    ensures Visible(types, rank, c).Ok?
    ensures var last := Last(Visible(types, rank, c).value, n);
            && GetProperty(types, rank, c, n) == (if last.Some? then Ok(last.value) else NotFound)
            && HasProperty(types, rank, c, n) == Ok(last.Some?)
    decreases Height(types, rank, c)
  {
    hide Listing, Last;
    OwnLast(c.props, n);
    if c.parent.Some? {
      ParentLower(types, rank, c);
      LookupMatchesListing(types, rank, types[c.parent.value], n);
    }
    var inherited := Inherited(types, rank, c).value;
    LastAppend(inherited, c.props, n);
    ListingLast(inherited + c.props, c.customOrder, n);
    NoLast(n);
  }

  /** Without a custom order the parent's listing comes first, then the own properties in their order. */
  lemma NormalOrder(types: Types, rank: map<string, nat>, c: Class)
    requires Hierarchy(types, rank) && Complete(types, rank, c) && c.customOrder == []
    ensures Visible(types, rank, c).Ok?
    ensures c.parent.None? ==> Visible(types, rank, c).value == c.props
    ensures c.parent.Some? ==>
              var above := Visible(types, rank, types[c.parent.value]);
              above.Ok? && Visible(types, rank, c).value == above.value + c.props
  {
    IncompleteFails(types, rank, c, "");
    if c.parent.Some? {
      ParentLower(types, rank, c);
      IncompleteFails(types, rank, types[c.parent.value], "");
    } else {
      assert [] + c.props == c.props;
    }
  }

  /** The names in the order in which they are first mentioned. */
  function FirstMentions(ps: seq<Property>): seq<string>
  {
    if ps == [] then []
    else
      var front := FirstMentions(ps[..|ps| - 1]);
      var n := ps[|ps| - 1].name;
      if n in front then front else front + [n]
  }

  /** The merged properties are in the order in which their names first appear. */
  lemma {:induction false} LookupOrder(ps: seq<Property>)
    ensures |Lookup(ps)| == |FirstMentions(ps)|
    ensures forall i :: 0 <= i < |Lookup(ps)| ==> Lookup(ps)[i].name == FirstMentions(ps)[i]
  {
    if ps != [] {
      LookupOrder(ps[..|ps| - 1]);
      var m, p, names := Lookup(ps[..|ps| - 1]), ps[|ps| - 1], FirstMentions(ps[..|ps| - 1]);
      var k := Find(m, p.name);
      if k < |m| {
        assert names[k] == p.name;
      } else {
        forall i | 0 <= i < |names| ensures names[i] != p.name { assert m[i].name == names[i]; }
      }
    }
  }

  lemma NoLast(n: string)
    ensures Last([], n) == None
  {}

  /** Names of a listing are those of the properties listed. */
  lemma ListingNames(all: seq<Property>, order: seq<string>, n: string)
    ensures n in Names(Listing(all, order)) <==> n in Names(all)
  {
    ListingLast(all, order, n);
    LastMember(all, n);
    LastMember(Listing(all, order), n);
  }

  /** A custom order lists every visible name once, first those it mentions, in its order, then the rest in theirs. */
  lemma CustomOrder(all: seq<Property>, order: seq<string>)
    requires order != []
    ensures Distinct(Listing(all, order)) && Names(Listing(all, order)) == Names(all)
    ensures var l := Listed(Names(all), order);
            |l| <= |Listing(all, order)| && (forall i :: 0 <= i < |l| ==> Listing(all, order)[i].name == l[i]) &&
            Listing(all, order)[|l|..] == Without(Lookup(all), Mentioned(order))
  {
    hide Listing, Lookup, Names, Arranged, Without;
    LookupLast(all, "");
    ArrangedMembers(Lookup(all), order);
    ArrangedPrefix(Lookup(all), order);
    ArrangedRest(Lookup(all), order);
    ListingArranged(all, order);
    forall n ensures n in Names(Lookup(all)) <==> n in Names(all) { LookupNames(all, n); }
    assert Names(Lookup(all)) == Names(all);
    forall n ensures n in Names(Listing(all, order)) <==> n in Names(all) { ListingNames(all, order, n); }
  }

  lemma ListingArranged(all: seq<Property>, order: seq<string>)
    requires order != []
    ensures Listing(all, order) == Arranged(Lookup(all), order)
  {}

  lemma LookupNames(all: seq<Property>, n: string)
    ensures n in Names(Lookup(all)) <==> n in Names(all)
  {
    LookupLast(all, n);
    LastMember(all, n);
    LastMember(Lookup(all), n);
  }

  // ---------- Building the lists ----------

  method GetInheritedProperties(types: Types, ghost rank: map<string, nat>, c: Class)
      returns (r: Outcome<seq<Property>>)
    requires Hierarchy(types, rank)
    ensures r == Inherited(types, rank, c)
    decreases Height(types, rank, c), 0
  {
    if c.parent.None? {
      return Ok([]);
    }
    if c.parent.value !in types {
      return Failed;
    }
    ParentLower(types, rank, c);
    r := GetProperties(types, rank, types[c.parent.value], true);
  }

  /** getProperties */
  method GetProperties(types: Types, ghost rank: map<string, nat>, c: Class, includeInherited: bool)
      returns (r: Outcome<seq<Property>>)
    requires Hierarchy(types, rank)
    ensures r == if includeInherited then Visible(types, rank, c) else Ok(Listing(c.props, c.customOrder))
    decreases Height(types, rank, c), 2
  {
    if c.customOrder == [] {
      r := GetWithNormalOrder(types, rank, c, includeInherited);
    } else {
      r := GetWithCustomOrder(types, rank, c, includeInherited);
    }
  }

  method GetWithNormalOrder(types: Types, ghost rank: map<string, nat>, c: Class, includeInherited: bool)
      returns (r: Outcome<seq<Property>>)
    requires Hierarchy(types, rank) && c.customOrder == []
    ensures r == if includeInherited then Visible(types, rank, c) else Ok(c.props)
    decreases Height(types, rank, c), 1
  {
    var properties := [];
    if includeInherited {
      var inherited := GetInheritedProperties(types, rank, c);
      if !inherited.Ok? {
        return Failed;
      }
      properties := inherited.value;
    }
    ghost var before := properties;
    for i := 0 to |c.props|
      invariant properties == before + c.props[..i]
    {
      properties := properties + [c.props[i]];
    }
    assert properties == before + c.props && [] + c.props == c.props;
    return Ok(properties);
  }

  method GetWithCustomOrder(types: Types, ghost rank: map<string, nat>, c: Class, includeInherited: bool)
      returns (r: Outcome<seq<Property>>)
    requires Hierarchy(types, rank) && c.customOrder != []
    ensures r == if includeInherited then Visible(types, rank, c) else Ok(Listing(c.props, c.customOrder))
    decreases Height(types, rank, c), 1
  {
    hide Lookup, Arranged;
    var properties := [];
    if includeInherited {
      var inherited := GetInheritedProperties(types, rank, c);
      if !inherited.Ok? {
        return Failed;
      }
      properties := inherited.value;
    }
    var lookup := FillLookup(properties, c.props);
    properties := TakeOrdered(lookup, c.customOrder);
    assert [] + c.props == c.props;
    return Ok(properties);
  }

  /** The inherited properties, then the own ones, into the ordered map. */
  method FillLookup(inherited: seq<Property>, own: seq<Property>) returns (lookup: seq<Property>)
    ensures lookup == Lookup(inherited + own)
  {
    hide Assign;
    var all := inherited + own;
    lookup := [];
    for i := 0 to |inherited|
      invariant lookup == Lookup(all[..i])
    {
      assert all[..i + 1][..i] == all[..i];
      lookup := Assign(lookup, inherited[i]);
    }
    for i := 0 to |own|
      invariant lookup == Lookup(all[..|inherited| + i])
    {
      var k := |inherited| + i;
      assert all[..k + 1][..k] == all[..k];
      lookup := Assign(lookup, own[i]);
    }
    assert all[..|all|] == all;
  }

  /** The listed ones are moved over one by one, then the rest. */
  method TakeOrdered(m: seq<Property>, order: seq<string>) returns (properties: seq<Property>)
    ensures properties == Arranged(m, order)
  {
    hide Erase;
    var lookup := m;
    properties := [];
    for i := 0 to |order|
      invariant properties + Arranged(lookup, order[i..]) == Arranged(m, order)
    {
      assert order[i..][1..] == order[i + 1..];
      var k := Find(lookup, order[i]);
      if k < |lookup| {
        properties := properties + [lookup[k]];
        lookup := Erase(lookup, order[i]);
      }
    }
    assert Arranged(lookup, order[|order|..]) == lookup;
    ghost var taken := properties;
    for i := 0 to |lookup|
      invariant properties == taken + lookup[..i]
    {
      properties := properties + [lookup[i]];
    }
    assert lookup[..|lookup|] == lookup;
  }
}
