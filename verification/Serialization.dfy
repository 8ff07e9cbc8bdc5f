/**
 Values written as JSON events and read back: null, booleans, integers, floats, strings, lists and
 dictionaries with their interface ids (serializer version above 1).
 */
module Serialization {
  import opened Options
  import opened InterfaceId

  /** Dictionaries keep their entries in the order of insertion. */
  datatype Value =
    | Null
    | Bool(b: bool)
    | Int(i: int)
    | Float(f: real)
    | Str(s: string)
    | List(iid: Id, items: seq<Value>)
    | Dict(keyId: Id, valueId: Id, entries: seq<Entry>)

  datatype Entry = Entry(key: Value, value: Value)

  datatype Json =
    | JNull
    | JBool(b: bool)
    | JInt(i: int)
    | JDouble(f: real)
    | JString(s: string)
    | JArray(elements: seq<Json>)
    | JObject(members: seq<Member>)

  datatype Member = Member(name: string, value: Json)

  datatype Event =
    | NullEvent
    | BoolEvent(b: bool)
    | IntEvent(i: int)
    | DoubleEvent(f: real)
    | StringEvent(s: string)
    | KeyEvent(s: string)
    | StartObject
    | EndObject
    | StartArray
    | EndArray

  /** IUnknown::Id, which stands for no particular interface and is not written. */
  const UNKNOWN: Id := [0, 0, 0, 0xC0, 0, 0, 0, 0, 0, 0, 0x46]

  // ---------- Events and trees ----------

  function Events(j: Json): seq<Event>
    decreases j
  {
    match j
    case JNull => [NullEvent]
    case JBool(b) => [BoolEvent(b)]
    case JInt(i) => [IntEvent(i)]
    case JDouble(f) => [DoubleEvent(f)]
    case JString(s) => [StringEvent(s)]
    case JArray(xs) => [StartArray] + ElementEvents(xs) + [EndArray]
    case JObject(ms) => [StartObject] + MemberEvents(ms) + [EndObject]
  }

  function ElementEvents(xs: seq<Json>): seq<Event>
    decreases xs
  {
    if xs == [] then [] else Events(xs[0]) + ElementEvents(xs[1..])
  }

  function MemberEvents(ms: seq<Member>): seq<Event>
    decreases ms
  {
    if ms == [] then [] else [KeyEvent(ms[0].name)] + Events(ms[0].value) + MemberEvents(ms[1..])
  }

  datatype Read<T> = Bad | Good(value: T, rest: seq<Event>)

  /** The tree at the start of an event stream. */
  function ReadTree(ev: seq<Event>): (r: Read<Json>)
    ensures r.Good? ==> |r.rest| < |ev|
    decreases |ev|, 0
  {
    if ev == [] then Bad
    else
      match ev[0]
      case NullEvent => Good(JNull, ev[1..])
      case BoolEvent(b) => Good(JBool(b), ev[1..])
      case IntEvent(i) => Good(JInt(i), ev[1..])
      case DoubleEvent(f) => Good(JDouble(f), ev[1..])
      case StringEvent(s) => Good(JString(s), ev[1..])
      case StartArray =>
        var r := ReadElements(ev[1..]);
        if r.Bad? then Bad else Good(JArray(r.value), r.rest)
      case StartObject =>
        var r := ReadMembers(ev[1..]);
        if r.Bad? then Bad else Good(JObject(r.value), r.rest)
      case _ => Bad
  }

  function ReadElements(ev: seq<Event>): (r: Read<seq<Json>>)
    ensures r.Good? ==> |r.rest| < |ev|
    decreases |ev|, 1
  {
    if ev == [] then Bad
    else if ev[0] == EndArray then Good([], ev[1..])
    else
      var r := ReadTree(ev);
      if r.Bad? then Bad
      else
        var more := ReadElements(r.rest);
        if more.Bad? then Bad else Good([r.value] + more.value, more.rest)
  }

  function ReadMembers(ev: seq<Event>): (r: Read<seq<Member>>)
    ensures r.Good? ==> |r.rest| < |ev|
    decreases |ev|, 1
  {
    if ev == [] then Bad
    else if ev[0] == EndObject then Good([], ev[1..])
    else if !ev[0].KeyEvent? then Bad
    else
      var r := ReadTree(ev[1..]);
      if r.Bad? then Bad
      else
        var more := ReadMembers(r.rest);
        if more.Bad? then Bad else Good([Member(ev[0].s, r.value)] + more.value, more.rest)
  }

  /** Every tree is read back from its events, whatever follows them. */
  lemma {:induction false} TreeOfEvents(j: Json, rest: seq<Event>)
    ensures ReadTree(Events(j) + rest) == Good(j, rest)
    decreases j
  {
    var ev := Events(j) + rest;
    match j {
      case JArray(xs) =>
        assert ev[1..] == ElementEvents(xs) + ([EndArray] + rest);
        ElementsOfEvents(xs, rest);
      case JObject(ms) =>
        assert ev[1..] == MemberEvents(ms) + ([EndObject] + rest);
        MembersOfEvents(ms, rest);
      case _ =>
        assert ev[1..] == rest;
    }
  }

  lemma {:induction false} ElementsOfEvents(xs: seq<Json>, rest: seq<Event>)
    ensures ReadElements(ElementEvents(xs) + ([EndArray] + rest)) == Good(xs, rest)
    decreases xs
  {
    hide Events;
    var ev := ElementEvents(xs) + ([EndArray] + rest);
    if xs == [] {
      assert ev == [EndArray] + rest;
    } else {
      var more := ElementEvents(xs[1..]) + ([EndArray] + rest);
      assert ev == Events(xs[0]) + more;
      FirstEvent(xs[0]);
      TreeOfEvents(xs[0], more);
      ElementsOfEvents(xs[1..], rest);
      assert xs == [xs[0]] + xs[1..];
    }
  }

  lemma {:induction false} MembersOfEvents(ms: seq<Member>, rest: seq<Event>)
    ensures ReadMembers(MemberEvents(ms) + ([EndObject] + rest)) == Good(ms, rest)
    decreases ms
  {
    hide Events;
    var ev := MemberEvents(ms) + ([EndObject] + rest);
    if ms == [] {
      assert ev == [EndObject] + rest;
    } else {
      var more := MemberEvents(ms[1..]) + ([EndObject] + rest);
      assert ev[1..] == Events(ms[0].value) + more;
      TreeOfEvents(ms[0].value, more);
      MembersOfEvents(ms[1..], rest);
      assert ms == [ms[0]] + ms[1..];
    }
  }

  lemma FirstEvent(j: Json)
    ensures Events(j) != [] && Events(j)[0] != EndArray
  {}

  // ---------- Writing ----------

  function IdMember(name: string, id: Id): seq<Member>
    requires |id| == 11
  {
    if id == UNKNOWN then [] else [Member(name, JString(Printed(id)))]
  }

  /** Interface ids have their eleven fields. */
  ghost predicate Shaped(v: Value)
    decreases v
  {
    match v
    case List(iid, items) => |iid| == 11 && ShapedAll(items)
    case Dict(keyId, valueId, entries) => |keyId| == 11 && |valueId| == 11 && ShapedEntries(entries)
    case _ => true
  }

  ghost predicate ShapedAll(vs: seq<Value>)
    decreases vs
  {
    vs == [] || (Shaped(vs[0]) && ShapedAll(vs[1..]))
  }

  ghost predicate ShapedEntries(es: seq<Entry>)
    decreases es
  {
    es == [] || (ShapedEntry(es[0]) && ShapedEntries(es[1..]))
  }

  ghost predicate ShapedEntry(e: Entry)
    decreases e
  {
    Shaped(e.key) && Shaped(e.value)
  }

  ghost function ToJson(v: Value): Json
    requires Shaped(v)
    decreases v
  {
    match v
    case Null => JNull
    case Bool(b) => JBool(b)
    case Int(i) => JInt(i)
    case Float(f) => JDouble(f)
    case Str(s) => JString(s)
    case List(iid, items) =>
      JObject(LIST_TYPE + IdMember("itemIntfID", iid) + [Member("values", JArray(ToElements(items)))])
    case Dict(keyId, valueId, entries) =>
      JObject(DICT_TYPE + IdMember("keyIntfID", keyId) + IdMember("valueIntfID", valueId)
              + [Member("values", JArray(ToEntries(entries)))])
  }

  ghost function ToElements(vs: seq<Value>): seq<Json>
    requires ShapedAll(vs)
    decreases vs
  {
    if vs == [] then [] else [ToJson(vs[0])] + ToElements(vs[1..])
  }

  ghost function ToEntries(es: seq<Entry>): seq<Json>
    requires ShapedEntries(es)
    decreases es
  {
    if es == [] then []
    else [ToEntry(es[0])] + ToEntries(es[1..])
  }

  ghost function ToEntry(e: Entry): Json
    requires ShapedEntry(e)
    decreases e
  {
    JObject([Member("key", ToJson(e.key)), Member("value", ToJson(e.value))])
  }

  // ---------- Reading ----------

  /** What a C string holds of the text. */
  function UpToNul(s: string): string
  {
    if s == "" || s[0] == '\0' then "" else [s[0]] + UpToNul(s[1..])
  }

  /** The first member with the name, or the number of members. */
  function Find(ms: seq<Member>, name: string): (k: nat)
    ensures k <= |ms| && (k < |ms| ==> ms[k].name == name) && forall i :: 0 <= i < k ==> ms[i].name != name
  {
    if ms == [] then 0 else if ms[0].name == name then 0 else 1 + Find(ms[1..], name)
  }

  /** The interface id under a key: unknown if the key is missing, None if it is no string. */
  function IdAt(ms: seq<Member>, name: string): (r: Option<Id>)
    ensures r.Some? ==> |r.value| == 11
  {
    var k := Find(ms, name);
    if k == |ms| then Some(UNKNOWN)
    else if ms[k].value.JString? then Some(Parsed(UpToNul(ms[k].value.s), UNKNOWN))
    else None
  }

  /** dict->set: a null key is refused, a known one gets the new value in place. */
  function Set(es: seq<Entry>, key: Value, value: Value): seq<Entry>
  {
    if key.Null? then es
    else if es == [] then [Entry(key, value)]
    else if es[0].key == key then [Entry(key, value)] + es[1..]
    else [es[0]] + Set(es[1..], key, value)
  }

  function FromJson(j: Json): Option<Value>
    decreases j
  {
    match j
    case JNull => Some(Null)
    case JBool(b) => Some(Bool(b))
    case JInt(i) => Some(Int(i))
    case JDouble(f) => Some(Float(f))
    case JString(s) => Some(Str(UpToNul(s)))
    case JArray(xs) =>
      var vs := FromElements(xs);
      if vs.None? || JNull in xs then None else Some(List(UNKNOWN, vs.value))
    case JObject(ms) =>
      var t := Find(ms, "__type");
      var k := Find(ms, "values");
      if t == |ms| || !ms[t].value.JString? then None
      else if UpToNul(ms[t].value.s) == "List" then
        var iid := IdAt(ms, "itemIntfID");
        if iid.None? || k == |ms| || !ms[k].value.JArray? then None
        else
          var vs := FromElements(ms[k].value.elements);
          if vs.None? then None else Some(List(iid.value, vs.value))
      else if UpToNul(ms[t].value.s) == "Dict" then
        var keyId := IdAt(ms, "keyIntfID");
        var valueId := IdAt(ms, "valueIntfID");
        if keyId.None? || valueId.None? || k == |ms| || !ms[k].value.JArray? then None
        else
          var es := FromEntries(ms[k].value.elements, []);
          if es.None? then None else Some(Dict(keyId.value, valueId.value, es.value))
      else None
  }

  function FromElements(xs: seq<Json>): Option<seq<Value>>
    decreases xs
  {
    if xs == [] then Some([])
    else
      var v := FromJson(xs[0]);
      if v.None? then None
      else
        var vs := FromElements(xs[1..]);
        if vs.None? then None else Some([v.value] + vs.value)
  }

  function FromEntries(xs: seq<Json>, done: seq<Entry>): Option<seq<Entry>>
    decreases xs
  {
    if xs == [] then Some(done)
    else if !xs[0].JObject? then None
    else
      var ms := xs[0].members;
      var (k, v) := (Find(ms, "key"), Find(ms, "value"));
      if k == |ms| then None
      else
        var key := FromJson(ms[k].value);
        if key.None? || v == |ms| then None
        else
          var value := FromJson(ms[v].value);
          if value.None? then None else FromEntries(xs[1..], Set(done, key.value, value.value))
  }

  // ---------- The round trip ----------

  /** Values as programs build them: valid ids, strings without NUL, dictionaries with distinct keys. */
  ghost predicate WellFormedValue(v: Value)
    decreases v
  {
    match v
    case Str(s) => '\0' !in s
    case List(iid, items) => ValidId(iid) && WellFormedAll(items)
    case Dict(keyId, valueId, entries) => ValidId(keyId) && ValidId(valueId) && WellFormedEntries(entries)
        && DistinctKeys(entries)
    case _ => true
  }

  ghost predicate WellFormedAll(vs: seq<Value>)
    decreases vs
  {
    vs == [] || (WellFormedValue(vs[0]) && WellFormedAll(vs[1..]))
  }

  ghost predicate WellFormedEntries(es: seq<Entry>)
    decreases es
  {
    es == [] || (WellFormedEntry(es[0]) && WellFormedEntries(es[1..]))
  }

  ghost predicate WellFormedEntry(e: Entry)
    decreases e
  {
    WellFormedValue(e.key) && WellFormedValue(e.value) && !e.key.Null?
  }

  ghost predicate DistinctKeys(es: seq<Entry>)
  {
    forall i, j :: 0 <= i < j < |es| ==> es[i].key != es[j].key
  }

  lemma {:induction false} WellFormedShaped(v: Value)
    requires WellFormedValue(v)
    ensures Shaped(v)
    decreases v
  {
    match v {
      case List(_, items) => AllShaped(items);
      case Dict(_, _, entries) => EntriesShaped(entries);
      case _ =>
    }
  }

  lemma {:induction false} AllShaped(vs: seq<Value>)
    requires WellFormedAll(vs)
    ensures ShapedAll(vs)
    decreases vs
  {
    if vs != [] {
      WellFormedShaped(vs[0]);
      AllShaped(vs[1..]);
    }
  }

  lemma {:induction false} EntriesShaped(es: seq<Entry>)
    requires WellFormedEntries(es)
    ensures ShapedEntries(es)
    decreases es
  {
    if es != [] {
      EntryShaped(es[0]);
      EntriesShaped(es[1..]);
    }
  }

  lemma {:induction false} EntryShaped(e: Entry)
    requires WellFormedEntry(e)
    ensures ShapedEntry(e)
    decreases e
  {
    WellFormedShaped(e.key);
    WellFormedShaped(e.value);
  }

  lemma {:induction false} NulFree(s: string)
    requires '\0' !in s
    ensures UpToNul(s) == s
  {
    if s != "" {
      NulFree(s[1..]);
      assert s == [s[0]] + s[1..];
    }
  }

  /** Looking past members with other names. */
  lemma FindPast(ms: seq<Member>, more: seq<Member>, name: string)
    requires Lacks(ms, name)
    ensures Find(ms + more, name) == |ms| + Find(more, name)
  {
    if ms != [] {
      FindPast(ms[1..], more, name);
      assert (ms + more)[1..] == ms[1..] + more;
    } else {
      assert ms + more == more;
    }
  }

  lemma PrintedNulFree(id: Id)
    requires ValidId(id)
    ensures UpToNul(Printed(id)) == Printed(id) && Parsed(Printed(id), UNKNOWN) == id
  {
    hide Tail, Parsed, WellFormed, IdOf, UpToNul;
    ParsePrinted(id);
    ParsedWellFormed(Printed(id), UNKNOWN);
    TailNoNul(id, 0);
    NulFree(Printed(id));
  }

  /** Reading what was written, as trees. */
  lemma {:induction false} FromToJson(v: Value)
    requires WellFormedValue(v)
    ensures Shaped(v) && FromJson(ToJson(v)) == Some(v)
    decreases v
  {
    hide Find, IdAt, IdMember, ValidId, UpToNul, Printed, FromElements, FromEntries;
    WellFormedShaped(v);
    match v {
      case Str(s) => NulFree(s);
      case List(iid, items) =>
        FromToElements(items);
        ListMembers(iid, JArray(ToElements(items)));
        TypeNames();
      case Dict(keyId, valueId, entries) =>
        assert [] + entries == entries;
        FromToEntries(entries, []);
        DictMembers(keyId, valueId, JArray(ToEntries(entries)));
        TypeNames();
      case _ =>
    }
  }

  lemma TypeNames()
    ensures UpToNul("List") == "List" && UpToNul("Dict") == "Dict" != "List"
  {
    NulFree("List");
    NulFree("Dict");
    assert "List"[0] == 'L' && "Dict"[0] == 'D';
  }

  lemma {:induction false} FromToElements(vs: seq<Value>)
    requires WellFormedAll(vs)
    ensures ShapedAll(vs) && FromElements(ToElements(vs)) == Some(vs)
    decreases vs
  {
    AllShaped(vs);
    if vs != [] {
      FromToJson(vs[0]);
      FromToElements(vs[1..]);
      var xs := ToElements(vs);
      assert xs[1..] == ToElements(vs[1..]);
      assert vs == [vs[0]] + vs[1..];
    }
  }

  lemma {:induction false} FromToEntries(es: seq<Entry>, done: seq<Entry>)
    requires WellFormedEntries(es) && DistinctKeys(done + es)
    ensures ShapedEntries(es) && FromEntries(ToEntries(es), done) == Some(done + es)
    decreases es
  {
    EntriesShaped(es);
    if es == [] {
      assert done + es == done;
    } else {
      var e := es[0];
      FromToEntry(e);
      var xs := ToEntries(es);
      assert xs[1..] == ToEntries(es[1..]);
      forall i | 0 <= i < |done| ensures done[i].key != e.key {
        assert (done + es)[i].key != (done + es)[|done|].key;
      }
      SetNew(done, e.key, e.value);
      assert (done + [e]) + es[1..] == done + es;
      FromToEntries(es[1..], done + [e]);
    }
  }

  lemma {:induction false} FromToEntry(e: Entry)
    requires WellFormedEntry(e)
    ensures ShapedEntry(e) && FromJson(ToJson(e.key)) == Some(e.key) && FromJson(ToJson(e.value)) == Some(e.value)
    ensures var ms := ToEntry(e).members; Find(ms, "key") == 0 && Find(ms, "value") == 1
    decreases e
  {
    FromToJson(e.key);
    FromToJson(e.value);
    var ms := ToEntry(e).members;
    assert Find(ms[1..], "value") == 0;
  }

  lemma {:induction false} SetNew(es: seq<Entry>, key: Value, value: Value)
    requires !key.Null? && forall i :: 0 <= i < |es| ==> es[i].key != key
    ensures Set(es, key, value) == es + [Entry(key, value)]
  {
    if es != [] {
      SetNew(es[1..], key, value);
    }
  }

  ghost predicate Lacks(ms: seq<Member>, name: string)
  {
    forall i :: 0 <= i < |ms| ==> ms[i].name != name
  }

  /** An id written among other members is found and read; one not written is unknown. */
  lemma IdAmong(before: seq<Member>, after: seq<Member>, name: string, id: Id)
    requires ValidId(id) && Lacks(before, name) && Lacks(after, name)
    ensures IdAt(before + IdMember(name, id) + after, name) == Some(id)
  {
    hide Printed, Parsed, UpToNul;
    var m := IdMember(name, id);
    assert before + m + after == before + (m + after);
    FindPast(before, m + after, name);
    PrintedNulFree(id);
    if id == UNKNOWN {
      FindPast(after, [], name);
      assert m + after == after + [];
    }
  }

  lemma IdMemberNames(name: string, id: Id)
    requires |id| == 11
    ensures forall i :: 0 <= i < |IdMember(name, id)| ==> IdMember(name, id)[i].name == name
  {}

  lemma LacksPlus(a: seq<Member>, b: seq<Member>, name: string)
    requires Lacks(a, name) && Lacks(b, name)
    ensures Lacks(a + b, name)
  {}

  const LIST_TYPE := [Member("__type", JString("List"))]
  const DICT_TYPE := [Member("__type", JString("Dict"))]

  lemma Names()
    ensures Lacks(LIST_TYPE, "itemIntfID") && Lacks(LIST_TYPE, "values")
    ensures Lacks(DICT_TYPE, "keyIntfID") && Lacks(DICT_TYPE, "valueIntfID") && Lacks(DICT_TYPE, "values")
    ensures "itemIntfID" != "values" && "keyIntfID" != "values" && "valueIntfID" != "values"
            && "keyIntfID" != "valueIntfID"
    ensures |"keyIntfID"| == 9 && |"valueIntfID"| == 11 && |"values"| == 6 && |"itemIntfID"| == 10
  {}

  lemma ListMembers(iid: Id, values: Json)
    requires ValidId(iid)
    ensures var ms := LIST_TYPE + IdMember("itemIntfID", iid) + [Member("values", values)];
            Find(ms, "__type") == 0 && Find(ms, "values") < |ms| && ms[Find(ms, "values")].value == values
                && IdAt(ms, "itemIntfID") == Some(iid)
  {
    hide IdAt, IdMember;
    var (i, v) := (IdMember("itemIntfID", iid), [Member("values", values)]);
    Names();
    IdMemberNames("itemIntfID", iid);
    LacksPlus(LIST_TYPE, i, "values");
    FindPast(LIST_TYPE + i, v, "values");
    IdAmong(LIST_TYPE, v, "itemIntfID", iid);
  }

  lemma DictMembers(keyId: Id, valueId: Id, values: Json)
    requires ValidId(keyId) && ValidId(valueId)
    ensures var ms := DICT_TYPE + IdMember("keyIntfID", keyId) + IdMember("valueIntfID", valueId)
            + [Member("values", values)];
            Find(ms, "__type") == 0 && Find(ms, "values") < |ms| && ms[Find(ms, "values")].value == values &&
            IdAt(ms, "keyIntfID") == Some(keyId) && IdAt(ms, "valueIntfID") == Some(valueId)
  {
    hide IdAt, IdMember, Find, Lacks;
    var (k, w, v) := (IdMember("keyIntfID", keyId), IdMember("valueIntfID", valueId), [Member("values", values)]);
    Names();
    DictNames(keyId, valueId, values);
    FindPast(DICT_TYPE + k + w, v, "values");
    FindFirst(v);
    FindFirst(DICT_TYPE + k + w + v);
    IdAmong(DICT_TYPE + k, v, "valueIntfID", valueId);
    IdAmong(DICT_TYPE, w + v, "keyIntfID", keyId);
    assert DICT_TYPE + k + w + v == DICT_TYPE + k + (w + v);
  }

  lemma FindFirst(ms: seq<Member>)
    requires ms != []
    ensures Find(ms, ms[0].name) == 0
  {}

  lemma DictNames(keyId: Id, valueId: Id, values: Json)
    requires |keyId| == |valueId| == 11
    ensures var (k, w, v) :=
            (IdMember("keyIntfID", keyId), IdMember("valueIntfID", valueId), [Member("values", values)]);
            Lacks(DICT_TYPE + k + w, "values") && Lacks(DICT_TYPE + k, "valueIntfID") && Lacks(v, "valueIntfID")
                && Lacks(w + v, "keyIntfID")
  {
    hide IdMember;
    Names();
    IdMemberNames("keyIntfID", keyId);
    IdMemberNames("valueIntfID", valueId);
  }

  /** Serialising and deserialising gives the value back, with all interface ids. */
  lemma RoundTrip(v: Value, rest: seq<Event>)
    requires WellFormedValue(v)
    ensures Shaped(v) && ReadTree(Events(ToJson(v)) + rest) == Good(ToJson(v), rest) && FromJson(ToJson(v)) == Some(v)
  {
    FromToJson(v);
    TreeOfEvents(ToJson(v), rest);
  }

  // ---------- JsonSerializerImpl and the serialize methods ----------

  class JsonSerializer {
    var output: seq<Event>

    constructor ()
      ensures output == []
    {
      output := [];
    }

    method Emit(e: Event)
      modifies this
      ensures output == old(output) + [e]
    {
      output := output + [e];
    }

    /** startTaggedObject */
    method StartTaggedObject(typeId: string)
      modifies this
      ensures output == old(output) + [StartObject, KeyEvent("__type"), StringEvent(typeId)]
    {
      Emit(StartObject);
      Emit(KeyEvent("__type"));
      Emit(StringEvent(typeId));
    }

    /** The key and the text of an interface id, unless it is the unknown one. */
    method WriteId(name: string, id: Id)
      requires |id| == 11
      modifies this
      ensures output == old(output) + MemberEvents(IdMember(name, id))
    {
      hide Printed;
      if id != UNKNOWN {
        Emit(KeyEvent(name));
        Emit(StringEvent(Printed(id)));
      }
    }

    /** serialize(), by the class of the object; null is written by the caller in the source. */
    method Serialize(v: Value)
      requires Shaped(v)
      modifies this
      ensures output == old(output) + Events(ToJson(v))
      decreases v
    {
      hide Events, ToJson;
      JsonCases(v);
      match v {
        case Null => Emit(NullEvent);
        case Bool(b) => Emit(BoolEvent(b));
        case Int(i) => Emit(IntEvent(i));
        case Float(f) => Emit(DoubleEvent(f));
        case Str(s) => Emit(StringEvent(s));
        case List(iid, items) => SerializeList(iid, items);
        case Dict(keyId, valueId, entries) => SerializeDict(keyId, valueId, entries);
      }
    }

    /** ListImpl::serialize */
    method SerializeList(iid: Id, items: seq<Value>)
      requires |iid| == 11 && ShapedAll(items)
      modifies this
      ensures output == old(output) + ListEvents(iid, items)
      decreases items, 1
    {
      hide MemberEvents, ElementEvents, ToElements, IdMember;
      StartTaggedObject("List");
      WriteId("itemIntfID", iid);
      Emit(KeyEvent("values"));
      Emit(StartArray);
      SerializeItems(items);
      Emit(EndArray);
      Emit(EndObject);
      Flat(old(output), [StartObject, KeyEvent("__type"), StringEvent("List")],
          MemberEvents(IdMember("itemIntfID", iid)), [],
           [KeyEvent("values")], [StartArray], ElementEvents(ToElements(items)), [EndArray], [EndObject]);
    }

    /** The loop over the elements. */
    method SerializeItems(items: seq<Value>)
      requires ShapedAll(items)
      modifies this
      ensures output == old(output) + ElementEvents(ToElements(items))
      decreases items, 0
    {
      hide Events, ToJson;
      for i := 0 to |items|
        invariant ShapedAll(items[i..])
        invariant output + ElementEvents(ToElements(items[i..])) == old(output) + ElementEvents(ToElements(items))
      {
        ghost var before := output;
        ElementStep(items[i..]);
        Serialize(items[i]);
        assert items[i..][1..] == items[i + 1..];
        assert before + (Events(ToJson(items[i])) + ElementEvents(ToElements(items[i + 1..]))) == output
               + ElementEvents(ToElements(items[i + 1..]));
      }
    }

    /** DictImpl::serialize */
    method SerializeDict(keyId: Id, valueId: Id, entries: seq<Entry>)
      requires |keyId| == 11 && |valueId| == 11 && ShapedEntries(entries)
      modifies this
      ensures output == old(output) + DictEvents(keyId, valueId, entries)
      decreases entries, 1
    {
      hide MemberEvents, ElementEvents, ToEntries, IdMember;
      StartTaggedObject("Dict");
      WriteId("keyIntfID", keyId);
      WriteId("valueIntfID", valueId);
      Emit(KeyEvent("values"));
      Emit(StartArray);
      SerializeEntries(entries);
      Emit(EndArray);
      Emit(EndObject);
      Flat(old(output), [StartObject, KeyEvent("__type"), StringEvent("Dict")],
          MemberEvents(IdMember("keyIntfID", keyId)),
           MemberEvents(IdMember("valueIntfID", valueId)), [KeyEvent("values")], [StartArray],
               ElementEvents(ToEntries(entries)), [EndArray], [EndObject]);
    }

    /** The loop over the hash table. */
    method SerializeEntries(entries: seq<Entry>)
      requires ShapedEntries(entries)
      modifies this
      ensures output == old(output) + ElementEvents(ToEntries(entries))
      decreases entries, 0
    {
      hide Events, ToEntry;
      for i := 0 to |entries|
        invariant ShapedEntries(entries[i..])
        invariant output + ElementEvents(ToEntries(entries[i..])) == old(output) + ElementEvents(ToEntries(entries))
      {
        ghost var before := output;
        EntryStep(entries[i..]);
        SerializeEntry(entries[i]);
        assert entries[i..][1..] == entries[i + 1..];
        assert before + (Events(ToEntry(entries[i])) + ElementEvents(ToEntries(entries[i + 1..]))) == output
               + ElementEvents(ToEntries(entries[i + 1..]));
      }
    }

    method SerializeEntry(e: Entry)
      requires ShapedEntry(e)
      modifies this
      ensures output == old(output) + Events(ToEntry(e))
      decreases e
    {
      hide Events, ToJson;
      ghost var before := output;
      Emit(StartObject);
      Emit(KeyEvent("key"));
      Serialize(e.key);
      Emit(KeyEvent("value"));
      Serialize(e.value);
      Emit(EndObject);
      EntryEvents(e);
    }
  }

  lemma Flat(o: seq<Event>, a: seq<Event>, b: seq<Event>, c: seq<Event>, d: seq<Event>, e: seq<Event>, f: seq<Event>,
      g: seq<Event>, h: seq<Event>)
    ensures o + (a + b + c + d + e + f + g + h) == o + a + b + c + d + e + f + g + h
    ensures a + b + [] == a + b
  {
    Associate(o, a, b);
    Associate(o, a + b, c);
    Associate(o, a + b + c, d);
    Associate(o, a + b + c + d, e);
    Associate(o, a + b + c + d + e, f);
    Associate(o, a + b + c + d + e + f, g);
    Associate(o, a + b + c + d + e + f + g, h);
  }

  lemma Associate(a: seq<Event>, b: seq<Event>, c: seq<Event>)
    ensures a + (b + c) == a + b + c
  {}

  ghost function ListEvents(iid: Id, items: seq<Value>): seq<Event>
    requires |iid| == 11 && ShapedAll(items)
  {
    [StartObject, KeyEvent("__type"), StringEvent("List")] + MemberEvents(IdMember("itemIntfID", iid))
    + [KeyEvent("values")] + [StartArray] + ElementEvents(ToElements(items)) + [EndArray] + [EndObject]
  }

  ghost function DictEvents(keyId: Id, valueId: Id, entries: seq<Entry>): seq<Event>
    requires |keyId| == 11 && |valueId| == 11 && ShapedEntries(entries)
  {
    [StartObject, KeyEvent("__type"), StringEvent("Dict")] + MemberEvents(IdMember("keyIntfID", keyId))
        + MemberEvents(IdMember("valueIntfID", valueId))
    + [KeyEvent("values")] + [StartArray] + ElementEvents(ToEntries(entries)) + [EndArray] + [EndObject]
  }

  lemma ElementStep(vs: seq<Value>)
    requires ShapedAll(vs) && vs != []
    ensures Shaped(vs[0]) && ShapedAll(vs[1..])
    ensures ElementEvents(ToElements(vs)) == Events(ToJson(vs[0])) + ElementEvents(ToElements(vs[1..]))
  {
    assert ToElements(vs)[1..] == ToElements(vs[1..]);
  }

  lemma EntryStep(es: seq<Entry>)
    requires ShapedEntries(es) && es != []
    ensures ShapedEntry(es[0]) && ShapedEntries(es[1..])
    ensures ElementEvents(ToEntries(es)) == Events(ToEntry(es[0])) + ElementEvents(ToEntries(es[1..]))
  {
    assert ToEntries(es)[1..] == ToEntries(es[1..]);
  }

  lemma {:induction false} MemberEventsAppend(a: seq<Member>, b: seq<Member>)
    ensures MemberEvents(a + b) == MemberEvents(a) + MemberEvents(b)
    decreases |a|
  {
    hide Events;
    if a == [] {
      assert a + b == b;
    } else {
      assert (a + b)[1..] == a[1..] + b;
      MemberEventsAppend(a[1..], b);
    }
  }

  lemma OneMember(m: Member)
    ensures MemberEvents([m]) == [KeyEvent(m.name)] + Events(m.value)
  {
    assert MemberEvents([m][1..]) == [];
  }

  lemma EntryEvents(e: Entry)
    requires ShapedEntry(e)
    ensures Events(ToEntry(e)) ==
              [StartObject] + [KeyEvent("key")] + Events(ToJson(e.key)) + [KeyEvent("value")]
                  + Events(ToJson(e.value)) + [EndObject]
  {
    hide MemberEvents, ToJson;
    var k, v := Member("key", ToJson(e.key)), Member("value", ToJson(e.value));
    OneMember(k);
    OneMember(v);
    MemberEventsAppend([k], [v]);
    assert [k] + [v] == ToEntry(e).members;
  }

  lemma JsonCases(v: Value)
    requires Shaped(v)
    ensures match v
            case Null => Events(ToJson(v)) == [NullEvent]
            case Bool(b) => Events(ToJson(v)) == [BoolEvent(b)]
            case Int(i) => Events(ToJson(v)) == [IntEvent(i)]
            case Float(f) => Events(ToJson(v)) == [DoubleEvent(f)]
            case Str(s) => Events(ToJson(v)) == [StringEvent(s)]
            case List(iid, items) => Events(ToJson(v)) == ListEvents(iid, items)
            case Dict(keyId, valueId, entries) => Events(ToJson(v)) == DictEvents(keyId, valueId, entries)
  {
    match v {
      case List(iid, items) => ListCase(iid, items);
      case Dict(keyId, valueId, entries) => DictCase(keyId, valueId, entries);
      case _ =>
    }
  }

  lemma ListCase(iid: Id, items: seq<Value>)
    requires |iid| == 11 && ShapedAll(items)
    ensures Events(ToJson(List(iid, items))) == ListEvents(iid, items)
  {
    hide MemberEvents, ElementEvents, ToElements, IdMember;
    var (i, m) := (IdMember("itemIntfID", iid), Member("values", JArray(ToElements(items))));
    OneMember(LIST_TYPE[0]);
    OneMember(m);
    MemberEventsAppend(LIST_TYPE, i);
    MemberEventsAppend(LIST_TYPE + i, [m]);
  }

  lemma DictCase(keyId: Id, valueId: Id, entries: seq<Entry>)
    requires |keyId| == 11 && |valueId| == 11 && ShapedEntries(entries)
    ensures Events(ToJson(Dict(keyId, valueId, entries))) == DictEvents(keyId, valueId, entries)
  {
    hide MemberEvents, ElementEvents, ToEntries, IdMember;
    var (k, w, m) := (IdMember("keyIntfID", keyId), IdMember("valueIntfID", valueId),
        Member("values", JArray(ToEntries(entries))));
    OneMember(DICT_TYPE[0]);
    OneMember(m);
    MemberEventsAppend(DICT_TYPE, k);
    MemberEventsAppend(DICT_TYPE + k, w);
    MemberEventsAppend(DICT_TYPE + k + w, [m]);
  }

  // ---------- JsonDeserializerImpl, JsonSerializedList and the factories ----------

  datatype ObjectRead = Invalid | NoObject | Object(members: seq<Member>)

  function ObjectAt(j: Json): ObjectRead
  {
    if j.JObject? then Object(j.members) else if j.JNull? then NoObject else Invalid
  }

  /** A list of the document with a cursor. */
  class JsonSerializedList {
    const elements: seq<Json>
    var index: nat

    constructor (xs: seq<Json>)
      ensures elements == xs && index == 0
    {
      elements, index := xs, 0;
    }

    /** readObject: None past the end, else the element at the cursor. */
    method ReadObject() returns (r: Option<Value>)
      modifies this
      ensures index == if old(index) < |elements| then old(index) + 1 else old(index)
      ensures r == if old(index) < |elements| then FromJson(elements[old(index)]) else None
      decreases elements, 0
    {
      if index >= |elements| {
        return None;
      }
      index := index + 1;
      r := Deserialize(elements[index - 1]);
    }

    /** readSerializedObject: a null is a success without an object, and leaves the cursor where it is. */
    method ReadSerializedObject() returns (r: ObjectRead)
      modifies this
      ensures r == if old(index) < |elements| then ObjectAt(elements[old(index)]) else Invalid
      ensures index == if r.Object? then old(index) + 1 else old(index)
    {
      if index >= |elements| {
        return Invalid;
      }
      if elements[index].JObject? {
        index := index + 1;
        return Object(elements[index - 1].members);
      }
      if elements[index].JNull? {
        return NoObject;
      }
      return Invalid;
    }
  }

  /** Deserialize; a null in a bare array, for which the source passes on an unset pointer, is an error. */
  method Deserialize(j: Json) returns (r: Option<Value>)
    ensures r == FromJson(j)
    decreases j, 2
  {
    match j {
      case JNull => r := Some(Null);
      case JBool(b) => r := Some(Bool(b));
      case JInt(i) => r := Some(Int(i));
      case JDouble(f) => r := Some(Float(f));
      case JString(s) => r := Some(Str(UpToNul(s)));
      case JArray(xs) =>
        var vs := ReadElementsOf(xs);
        r := if vs.None? || JNull in xs then None else Some(List(UNKNOWN, vs.value));
      case JObject(ms) =>
        r := DeserializeTagged(j);
    }
  }

  /** DeserializeTagged, without a factory callback and with the factories of lists and dictionaries. */
  method DeserializeTagged(j: Json) returns (r: Option<Value>)
    requires j.JObject?
    ensures r == FromJson(j)
    decreases j, 1
  {
    hide Find, IdAt, UpToNul, FromElements, FromEntries;
    var ms := j.members;
    var t := Find(ms, "__type");
    if t == |ms| || !ms[t].value.JString? {
      return None;
    }
    var typeId := UpToNul(ms[t].value.s);
    if typeId == "List" {
      r := DeserializeList(j);
    } else if typeId == "Dict" {
      r := DeserializeDict(j);
    } else {
      r := None;
    }
  }

  /** The interface id under a key of the object. */
  method ReadId(ms: seq<Member>, name: string) returns (id: Option<Id>)
    ensures id == IdAt(ms, name)
  {
    hide UpToNul, Parsed;
    var k := Find(ms, name);
    if k == |ms| {
      return Some(UNKNOWN);
    }
    if !ms[k].value.JString? {
      return None;
    }
    var ok, parsed := StringToInterfaceId(UpToNul(ms[k].value.s), UNKNOWN);
    return Some(parsed);
  }

  /** deserializeList */
  method DeserializeList(j: Json) returns (r: Option<Value>)
    requires j.JObject?
    requires var ms := j.members; var t := Find(ms, "__type");
             t < |ms| && ms[t].value.JString? && UpToNul(ms[t].value.s) == "List"
    ensures r == FromJson(j)
    decreases j, 0
  {
    hide Find, IdAt, UpToNul, FromElements, FromEntries;
    var ms := j.members;
    var iid := ReadId(ms, "itemIntfID");
    var k := Find(ms, "values");
    if iid.None? || k == |ms| || !ms[k].value.JArray? {
      return None;
    }
    var vs := ReadElementsOf(ms[k].value.elements);
    r := if vs.None? then None else Some(List(iid.value, vs.value));
  }

  /** The loop that reads a list's elements through the cursor. */
  method ReadElementsOf(xs: seq<Json>) returns (r: Option<seq<Value>>)
    ensures r == FromElements(xs)
    decreases xs, 1
  {
    hide FromJson;
    var list := new JsonSerializedList(xs);
    var items: seq<Value> := [];
    JoinedStep([], Null, FromElements(xs));
    assert xs[0..] == xs;
    for i := 0 to |xs|
      invariant list.index == i && list.elements == xs
      invariant FromElements(xs) == Joined(items, FromElements(xs[i..]))
    {
      assert xs[i..][1..] == xs[i + 1..];
      var v := list.ReadObject();
      if v.None? {
        return None;
      }
      JoinedStep(items, v.value, FromElements(xs[i + 1..]));
      items := items + [v.value];
    }
    assert FromElements(xs[|xs|..]) == Some([]) && items + [] == items;
    return Some(items);
  }

  function Joined(done: seq<Value>, more: Option<seq<Value>>): Option<seq<Value>>
  {
    if more.None? then None else Some(done + more.value)
  }

  lemma JoinedStep(done: seq<Value>, v: Value, more: Option<seq<Value>>)
    ensures Joined(done, Joined([v], more)) == Joined(done + [v], more)
    ensures Joined([], more) == more
  {
    assert more.Some? ==> done + ([v] + more.value) == done + [v] + more.value && [] + more.value == more.value;
  }

  /** deserializeDict */
  method DeserializeDict(j: Json) returns (r: Option<Value>)
    requires j.JObject?
    requires var ms := j.members; var t := Find(ms, "__type");
             t < |ms| && ms[t].value.JString? && UpToNul(ms[t].value.s) == "Dict"
    ensures r == FromJson(j)
    decreases j, 0
  {
    hide Find, IdAt, UpToNul, FromElements, FromEntries;
    DictIsNoList();
    var ms := j.members;
    var keyId := ReadId(ms, "keyIntfID");
    if keyId.None? {
      return None;
    }
    var valueId := ReadId(ms, "valueIntfID");
    var k := Find(ms, "values");
    if valueId.None? || k == |ms| || !ms[k].value.JArray? {
      return None;
    }
    var es := ReadEntriesOf(ms[k].value.elements);
    r := if es.None? then None else Some(Dict(keyId.value, valueId.value, es.value));
  }

  lemma DictIsNoList()
    ensures "Dict" != "List"
  {
    assert "Dict"[0] == 'D' && "List"[0] == 'L';
  }

  /** The loop that fills the dictionary. */
  method ReadEntriesOf(xs: seq<Json>) returns (r: Option<seq<Entry>>)
    ensures r == FromEntries(xs, [])
    decreases xs, 1
  {
    hide FromJson, Find, Set;
    var list := new JsonSerializedList(xs);
    var entries: seq<Entry> := [];
    for i := 0 to |xs|
      invariant list.index == i && list.elements == xs
      invariant FromEntries(xs, []) == FromEntries(xs[i..], entries)
    {
      assert xs[i..][1..] == xs[i + 1..];
      var members := list.ReadSerializedObject();
      if !members.Object? {
        return None;
      }
      var ms := members.members;
      var k, w := Find(ms, "key"), Find(ms, "value");
      if k == |ms| {
        return None;
      }
      var key := Deserialize(xs[i].members[k].value);
      if key.None? || w == |ms| {
        return None;
      }
      var value := Deserialize(xs[i].members[w].value);
      if value.None? {
        return None;
      }
      entries := Set(entries, key.value, value.value);
    }
    return Some(entries);
  }

  // ---------- Documents ----------

  /** A bare array of readable elements without null gives the list of their values in order. */
  lemma {:induction false} BareArray(xs: seq<Json>, vs: seq<Value>)
    requires |xs| == |vs| && forall i :: 0 <= i < |xs| ==> FromJson(xs[i]) == Some(vs[i])
    ensures FromJson(JArray(xs)) == if JNull in xs then None else Some(List(UNKNOWN, vs))
  {
    hide FromJson;
    ElementsInOrder(xs, vs);
    ArrayCase(xs);
  }

  lemma ArrayCase(xs: seq<Json>)
    ensures FromElements(xs).Some? && JNull !in xs ==>
            FromJson(JArray(xs)) == Some(List(UNKNOWN, FromElements(xs).value))
    ensures FromElements(xs).None? || JNull in xs ==> FromJson(JArray(xs)) == None
  {
    hide FromElements;
  }

  lemma {:induction false} ElementsInOrder(xs: seq<Json>, vs: seq<Value>)
    requires |xs| == |vs| && forall i :: 0 <= i < |xs| ==> FromJson(xs[i]) == Some(vs[i])
    ensures FromElements(xs) == Some(vs)
    decreases |xs|
  {
    hide FromJson;
    if xs != [] {
      ElementsInOrder(xs[1..], vs[1..]);
      assert vs == [vs[0]] + vs[1..];
    }
  }

  /** An element that cannot be read makes the array unreadable. */
  lemma {:induction false} UnreadableElement(xs: seq<Json>, i: nat)
    requires i < |xs| && FromJson(xs[i]) == None
    ensures FromElements(xs) == None && FromJson(JArray(xs)) == None
    decreases i
  {
    hide FromJson;
    if i > 0 {
      UnreadableElement(xs[1..], i - 1);
    }
    ArrayCase(xs);
  }

  /** The document of a list, event by event, without and with an element id. */
  lemma ListDocuments(x: int, iid: Id)
    requires |iid| == 11 && iid != UNKNOWN
    ensures ShapedAll([Int(x)]) && ListEvents(UNKNOWN, [Int(x)]) ==
            [StartObject, KeyEvent("__type"), StringEvent("List"), KeyEvent("values"), StartArray, IntEvent(x),
                EndArray, EndObject]
    ensures ListEvents(iid, []) ==
            [StartObject, KeyEvent("__type"), StringEvent("List"), KeyEvent("itemIntfID"), StringEvent(Printed(iid)),
             KeyEvent("values"), StartArray, EndArray, EndObject]
  {
    hide Printed;
    assert Shaped(Int(x)) && [Int(x)][1..] == [];
    ElementStep([Int(x)]);
    assert ElementEvents(ToElements([Int(x)])) == [IntEvent(x)];
    OneMember(Member("itemIntfID", JString(Printed(iid))));
  }

  /** The document of a dictionary with its ids. */
  lemma DictDocument(keyId: Id, valueId: Id)
    requires |keyId| == |valueId| == 11 && UNKNOWN !in {keyId, valueId}
    ensures DictEvents(keyId, valueId, []) ==
            [StartObject, KeyEvent("__type"), StringEvent("Dict"), KeyEvent("keyIntfID"), StringEvent(Printed(keyId)),
             KeyEvent("valueIntfID"), StringEvent(Printed(valueId)), KeyEvent("values"), StartArray, EndArray,
                 EndObject]
  {
    hide Printed;
    OneMember(Member("keyIntfID", JString(Printed(keyId))));
    OneMember(Member("valueIntfID", JString(Printed(valueId))));
  }

  /** And that of an entry. */
  lemma EntryDocument(x: int, y: int)
    ensures ShapedEntry(Entry(Int(x), Int(y))) && Events(ToEntry(Entry(Int(x), Int(y)))) ==
            [StartObject, KeyEvent("key"), IntEvent(x), KeyEvent("value"), IntEvent(y), EndObject]
  {
    var e := Entry(Int(x), Int(y));
    assert Shaped(e.key) && Shaped(e.value);
    EntryEvents(e);
  }

  /** Strings end at a NUL, for a document gives them as C strings. */
  lemma {:induction false} CutAtNul(a: string, more: string)
    requires '\0' !in a
    ensures UpToNul(a) == UpToNul(a + ("\0" + more)) == a
  {
    var s := a + ("\0" + more);
    if a == "" {
      assert s == "\0" + more;
    } else {
      CutAtNul(a[1..], more);
      assert s[1..] == a[1..] + ("\0" + more) && a == [a[0]] + a[1..];
    }
  }

  /** What is no array and no object stands for itself. */
  lemma PlainDocuments(b: bool, i: int, f: real, a: string, more: string)
    requires '\0' !in a
    ensures FromJson(JNull) == Some(Null) && FromJson(JBool(b)) == Some(Bool(b))
    ensures FromJson(JInt(i)) == Some(Int(i)) && FromJson(JDouble(f)) == Some(Float(f))
    ensures FromJson(JString(a)) == FromJson(JString(a + ("\0" + more))) == Some(Str(a))
  {
    hide UpToNul;
    CutAtNul(a, more);
  }

  /** An object without a type, or with one that no factory is known for, is refused. */
  lemma UnknownTypes(t: string, ms: seq<Member>)
    requires UpToNul(t) !in {"List", "Dict"}
    ensures FromJson(JObject([Member("__type", JString(t))] + ms)) == None
    ensures (forall i :: 0 <= i < |ms| ==> ms[i].name != "__type") ==> FromJson(JObject(ms)) == None
  {
    hide UpToNul;
    var typed := [Member("__type", JString(t))] + ms;
    assert Find(typed, "__type") == 0 && typed[0].value == JString(t);
    var k := Find(ms, "__type");
  }

  /** A key that is there already keeps its place and gets the new value. */
  lemma {:induction false} SetExisting(es: seq<Entry>, i: nat, key: Value, value: Value)
    requires i < |es| && es[i].key == key && !key.Null? && forall j :: 0 <= j < i ==> es[j].key != key
    ensures Set(es, key, value) == es[i := Entry(key, value)]
    decreases i
  {
    if i > 0 {
      SetExisting(es[1..], i - 1, key, value);
      assert es[i := Entry(key, value)] == [es[0]] + es[1..][i - 1 := Entry(key, value)];
    } else {
      assert es[0 := Entry(key, value)] == [Entry(key, value)] + es[1..];
    }
  }

  /** The unknown interface, as a text. */
  lemma UnknownId()
    ensures Printed(UNKNOWN) == "{" + ("00000000" + ("-" + ("0000" + ("-" + ("0000" + ("-" + ("C0" + ("00" + ("-" +
                                ("00" + ("00" + ("00" + ("00" + ("00" + ("46" + "}")))))))))))))))
  {
    hide Printed, Hex;
    PrintedFormat(UNKNOWN);
    UnknownFields();
  }

  lemma UnknownFields()
    ensures Hex(0, 8) == "00000000" && Hex(0, 4) == "0000" && Hex(0, 2) == "00" && Hex(0xC0, 2) == "C0"
            && Hex(0x46, 2) == "46"
  {
    assert Hex(0, 4) == "0000";
    assert Hex(0, 6) == "000000";
  }
}
