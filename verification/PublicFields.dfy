/** The leaf rules, nested values and exact-field tables that every viewer-safe contract of discovery_observations.py is
  * built from. `None` stands for ValueError or OverflowError. */
module PublicFields {
  import opened Wrappers
  import opened Bytes
  import opened Values

  const MAX_DEPTH := 8
  const MAX_STRING_CHARS := 4_096
  const MAX_VALUE_STRING_CHARS := 60_000
  const MAX_SEQUENCE_ITEMS := 512
  const MAX_PROTOCOL_PORTS := 4096
  const MAX_INT64 := 0x7FFF_FFFF_FFFF_FFFF

  /** What the model leaves open: the regular expressions, the address and datetime libraries, and pydantic's lax
    * coercions. */
  datatype Rules = Rules(
    unsafe: Text -> bool,
    opaqueReference: Text -> bool,
    ipv4: Text -> Option<Text>,
    instant: Value -> Option<Text>,
    laxText: Value -> Option<Text>,
    laxInt: Value -> Option<int>,
    laxBool: Value -> Option<bool>,
    laxRecord: Value -> Option<seq<Entry>>)

  // ---- Leaves ----

  predicate IsPublic(rules: Rules, t: Text, limit: nat) {
    && |t| <= limit
    && (forall c :: c in t ==> c >= 32 || c in {9, 10, 13})
    && !rules.unsafe(t)
  }

  function PublicString(rules: Rules, v: Value, limit: nat): Option<Value> {
    if v.Str? && IsPublic(rules, v.t, limit) then Some(v) else None
  }

  function OptionalPublicString(rules: Rules, v: Value, limit: nat): Option<Value> {
    if v.Null? then Some(v) else PublicString(rules, v, limit)
  }

  function Reference(rules: Rules, v: Value, limit: nat): Option<Value> {
    var text := PublicString(rules, v, limit);
    if text.Some? && rules.opaqueReference(text.value.t) then text else None
  }

  function BoolField(v: Value): Option<Value> {
    if v.Bool? then Some(v) else None
  }

  function IntField(v: Value, minimum: int): Option<Value> {
    if v.Int? && minimum <= v.i <= MAX_INT64 then Some(v) else None
  }

  /** 2^128, and the least integer too large for a float: (2^54 - 1) * 2^970. */
  const TWO_TO_THE_128 := 0x1_0000_0000_0000_0000_0000_0000_0000_0000
  const FLOAT_OVERFLOW :=
    0x3F_FFFF_FFFF_FFFF * 0x400_0000_0000_0000_0000 * TWO_TO_THE_128
    * TWO_TO_THE_128 * TWO_TO_THE_128 * TWO_TO_THE_128 * TWO_TO_THE_128 * TWO_TO_THE_128 * TWO_TO_THE_128

  /** An integer beyond the floats is refused by `math.isfinite` itself. */
  function NonNegativeNumber(v: Value): Option<Value> {
    match v
    case Int(i) => if 0 <= i < FLOAT_OVERFLOW then Some(v) else None
    case Number(Finite(r)) => if r >= 0.0 then Some(v) else None
    case _ => None
  }

  // ---- Recursive public values ----

  predicate IsSequence(v: Value) {
    v.List? || v.Tuple?
  }

  function PublicValue(rules: Rules, v: Value, depth: nat, limit: nat): Option<Value>
    decreases v, 1
  {
    if depth > MAX_DEPTH then None
    else match v
      case Null => Some(v)
      case Bool(_) => Some(v)
      case Int(i) => if -MAX_INT64 - 1 <= i <= MAX_INT64 then Some(v) else None
      case Number(f) => if f.Finite? then Some(v) else None
      case Str(_) => PublicString(rules, v, limit)
      case List(items) => PublicSequence(rules, items, depth, limit)
      case Tuple(items) => PublicSequence(rules, items, depth, limit)
      case _ => None
  }

  function PublicSequence(rules: Rules, items: seq<Value>, depth: nat, limit: nat): Option<Value>
    decreases items, 1
  {
    if |items| > MAX_SEQUENCE_ITEMS then None
    else
      var normalized := PublicItems(rules, items, depth + 1, limit);
      if normalized.None? then None else Some(List(normalized.value))
  }

  function PublicItems(rules: Rules, items: seq<Value>, depth: nat, limit: nat): (r: Option<seq<Value>>)
    ensures r.Some? ==> |r.value| == |items|
    ensures r.Some? ==> forall i :: 0 <= i < |items| ==> PublicValue(rules, items[i], depth, limit) == Some(r.value[i])
    ensures r.None? ==> exists i :: 0 <= i < |items| && PublicValue(rules, items[i], depth, limit).None?
    decreases items, 0
  {
    if items == [] then Some([])
    else
      var first := PublicValue(rules, items[0], depth, limit);
      var rest := PublicItems(rules, items[1..], depth, limit);
      if first.None? || rest.None? then None else Some([first.value] + rest.value)
  }

  /** The subvalue a path of sequence indices leads to. */
  function At(v: Value, path: seq<nat>): Option<Value>
    decreases path
  {
    if path == [] then Some(v)
    else if IsSequence(v) && path[0] < |v.items| then At(v.items[path[0]], path[1..])
    else None
  }

  /** What one node must satisfy, its descendants aside. */
  predicate NodeOk(rules: Rules, v: Value, limit: nat) {
    match v
    case Null => true
    case Bool(_) => true
    case Int(i) => -MAX_INT64 - 1 <= i <= MAX_INT64
    case Number(f) => f.Finite?
    case Str(t) => IsPublic(rules, t, limit)
    case List(items) => |items| <= MAX_SEQUENCE_ITEMS
    case Tuple(items) => |items| <= MAX_SEQUENCE_ITEMS
    case _ => false
  }

  ghost predicate AllNodesOk(rules: Rules, v: Value, depth: nat, limit: nat) {
    forall path: seq<nat> :: At(v, path).Some? ==>
      depth + |path| <= MAX_DEPTH && NodeOk(rules, At(v, path).value, limit)
  }

  lemma {:induction false} ItemsInheritNodes(rules: Rules, v: Value, depth: nat, limit: nat, i: nat)
    requires IsSequence(v) && i < |v.items| && AllNodesOk(rules, v, depth, limit)
    ensures AllNodesOk(rules, v.items[i], depth + 1, limit)
  {
    forall path: seq<nat> | At(v.items[i], path).Some?
      ensures depth + 1 + |path| <= MAX_DEPTH && NodeOk(rules, At(v.items[i], path).value, limit)
    {
      assert ([i] + path)[1..] == path;
      assert At(v, [i] + path) == At(v.items[i], path);
    }
  }

  /** Accepted exactly when every node, at any path, is within depth and passes its own check. */
  lemma {:induction false} PublicValueAccepts(rules: Rules, v: Value, depth: nat, limit: nat)
    ensures PublicValue(rules, v, depth, limit).Some? <==> AllNodesOk(rules, v, depth, limit)
    decreases v
  {
    assert At(v, []) == Some(v);
    if IsSequence(v) {
      forall i | 0 <= i < |v.items|
        ensures PublicValue(rules, v.items[i], depth + 1, limit).Some?
          <==> AllNodesOk(rules, v.items[i], depth + 1, limit)
      {
        PublicValueAccepts(rules, v.items[i], depth + 1, limit);
      }
      if AllNodesOk(rules, v, depth, limit) {
        forall i | 0 <= i < |v.items| ensures AllNodesOk(rules, v.items[i], depth + 1, limit) {
          ItemsInheritNodes(rules, v, depth, limit, i);
        }
      } else {
        var path: seq<nat> :| At(v, path).Some?
          && !(depth + |path| <= MAX_DEPTH && NodeOk(rules, At(v, path).value, limit));
        if path != [] {
          assert At(v.items[path[0]], path[1..]) == At(v, path);
        }
      }
    } else {
      assert forall path: seq<nat> :: At(v, path).Some? ==> path == [];
    }
  }

  // ---- Port lists ----

  function SortedDistinct(ports: seq<int>): (r: seq<int>)
    ensures StrictlyIncreasing(r)
    ensures forall p :: p in r <==> p in ports
  {
    if ports == [] then [] else InsertDistinct(ports[0], SortedDistinct(ports[1..]))
  }

  function InsertDistinct(p: int, sorted: seq<int>): (r: seq<int>)
    requires StrictlyIncreasing(sorted)
    ensures StrictlyIncreasing(r)
    ensures forall q :: q in r <==> q == p || q in sorted
  {
    if sorted == [] || p < sorted[0] then [p] + sorted
    else if p == sorted[0] then sorted
    else
      assert sorted == [sorted[0]] + sorted[1..];
      var tail := InsertDistinct(p, sorted[1..]);
      assert forall i :: 0 <= i < |tail| ==> tail[i] in tail;
      [sorted[0]] + tail
  }

  predicate StrictlyIncreasing(ports: seq<int>) {
    forall i, j :: 0 <= i < j < |ports| ==> ports[i] < ports[j]
  }

  function Ints(items: seq<Value>): (r: seq<int>)
    requires forall i :: 0 <= i < |items| ==> items[i].Int?
    ensures |r| == |items| && forall i :: 0 <= i < |items| ==> r[i] == items[i].i
  {
    seq(|items|, i requires 0 <= i < |items| => items[i].i)
  }

  function PortSequence(v: Value): Option<Value> {
    if v.Null? then Some(v)
    else if !IsSequence(v) || |v.items| > MAX_PROTOCOL_PORTS then None
    else if exists i :: 0 <= i < |v.items| && IntField(v.items[i], 1).None? then None
    else
      var ports := Ints(v.items);
      if exists i :: 0 <= i < |ports| && ports[i] > 65_535 then None
      else if ports != SortedDistinct(ports) then None
      else Some(List(v.items))
  }

  lemma {:induction false} IncreasingUnique(a: seq<int>, b: seq<int>)
    requires StrictlyIncreasing(a) && StrictlyIncreasing(b)
    requires forall p :: p in a <==> p in b
    ensures a == b
  {
    assert |a| > 0 ==> a[0] in a;
    assert |b| > 0 ==> b[0] in b;
    if a != [] {
      assert a[0] == b[0];
      forall p ensures p in a[1..] <==> p in b[1..] {
        assert p in a[1..] <==> p in a && p != a[0];
        assert p in b[1..] <==> p in b && p != b[0];
      }
      IncreasingUnique(a[1..], b[1..]);
      assert a == [a[0]] + a[1..] && b == [b[0]] + b[1..];
    }
  }

  /** `normalized == sorted(set(normalized))` says no more than strictly increasing. */
  lemma SortedDistinctFixed(ports: seq<int>)
    ensures ports == SortedDistinct(ports) <==> StrictlyIncreasing(ports)
  {
    if StrictlyIncreasing(ports) {
      IncreasingUnique(ports, SortedDistinct(ports));
    }
  }

  predicate IsPort(v: Value) {
    v.Int? && 1 <= v.i <= 65_535
  }

  /** Within the length cap, in 1..65535 and strictly increasing. */
  predicate ArePorts(items: seq<Value>) {
    && |items| <= MAX_PROTOCOL_PORTS
    && (forall i :: 0 <= i < |items| ==> IsPort(items[i]))
    && StrictlyIncreasing(Ints(items))
  }

  /** A port list passes exactly when it strictly increases within 1..65535 and the length cap. */
  lemma PortSequenceAccepts(v: Value)
    ensures PortSequence(v).Some? <==> v.Null? || (IsSequence(v) && ArePorts(v.items))
    ensures PortSequence(v).Some? ==> PortSequence(v).value == if v.Null? then v else List(v.items)
  {
    if IsSequence(v) {
      if i :| 0 <= i < |v.items| && IntField(v.items[i], 1).None? {
        assert !IsPort(v.items[i]);
      } else {
        PortsInOrder(v.items);
      }
    }
  }

  lemma PortsInOrder(items: seq<Value>)
    requires forall i :: 0 <= i < |items| ==> items[i].Int? && IntField(items[i], 1).Some?
    ensures Ints(items) == SortedDistinct(Ints(items)) <==> StrictlyIncreasing(Ints(items))
    ensures (exists i :: 0 <= i < |items| && Ints(items)[i] > 65_535)
       <==> exists i :: 0 <= i < |items| && !IsPort(items[i])
  {
    SortedDistinctFixed(Ints(items));
    forall i | 0 <= i < |items| ensures Ints(items)[i] > 65_535 <==> !IsPort(items[i]) {
      assert IntField(items[i], 1).Some?;
    }
  }

  // ---- Objects with an exact field table ----

  type Normaliser = (string, Value) -> Option<Value>

  predicate FieldPasses(allowed: set<string>, f: Normaliser, e: Entry) {
    e.key.Field? && e.key.name in allowed && f(e.key.name, e.value).Some?
  }

  /** `_require_exact_fields`, then one normaliser per field, keeping the order. */
  function Fields(allowed: set<string>, f: Normaliser, entries: seq<Entry>): (r: Option<seq<Entry>>)
    ensures r.Some? ==> |r.value| == |entries|
    ensures r.Some? ==> forall i :: 0 <= i < |entries| ==>
      && entries[i].key.Field? && entries[i].key.name in allowed && r.value[i].key == entries[i].key
      && f(entries[i].key.name, entries[i].value) == Some(r.value[i].value)
    ensures r.None? ==> exists i :: 0 <= i < |entries| && !FieldPasses(allowed, f, entries[i])
  {
    if entries == [] then Some([])
    else
      var e := entries[0];
      var rest := Fields(allowed, f, entries[1..]);
      if e.key.OtherKey? || e.key.name !in allowed || rest.None? then None
      else
        var value := f(e.key.name, e.value);
        if value.None? then None else Some([Entry(e.key, value.value)] + rest.value)
  }

  /** The dictionary-building loop every record normaliser runs after its exact-field check. */
  method BuildFields(allowed: set<string>, f: Normaliser, entries: seq<Entry>) returns (r: Option<seq<Entry>>)
    ensures r == Fields(allowed, f, entries)
  {
    if exists i :: 0 <= i < |entries| && (entries[i].key.OtherKey? || entries[i].key.name !in allowed) {
      return None;
    }
    var normalized: seq<Entry> := [];
    for i := 0 to |entries|
      invariant |normalized| == i
      invariant forall j :: 0 <= j < i ==> FieldPasses(allowed, f, entries[j])
      invariant forall j :: 0 <= j < i ==>
        normalized[j] == Entry(entries[j].key, f(entries[j].key.name, entries[j].value).value)
    {
      var item := f(entries[i].key.name, entries[i].value);
      if item.None? {
        return None;
      }
      normalized := normalized + [Entry(entries[i].key, item.value)];
    }
    r := Some(normalized);
    assert normalized == Fields(allowed, f, entries).value;
  }

  function Object(allowed: set<string>, f: Normaliser, v: Value): Option<Value> {
    if !v.Dict? then None
    else
      var normalized := Fields(allowed, f, v.entries);
      if normalized.None? then None else Some(Dict(normalized.value))
  }

  /** An accepted field is already in normal form, and JSON-escaping it either breaks it or keeps it so. */
  ghost predicate SettledAt(f: Normaliser, key: string, v: Value) {
    f(key, v).Some? ==>
      var w := f(key, v).value;
      && Plain(w)
      && f(key, w) == Some(w)
      && (f(key, JsonSafe(w)).Some? ==> f(key, JsonSafe(w)) == Some(JsonSafe(w)))
  }

  ghost predicate Settled(f: Normaliser) {
    forall key, v :: SettledAt(f, key, v)
  }

  lemma {:induction false} PublicValueSettled(rules: Rules, v: Value, depth: nat, limit: nat)
    requires PublicValue(rules, v, depth, limit).Some?
    ensures var w := PublicValue(rules, v, depth, limit).value;
      && Plain(w)
      && PublicValue(rules, w, depth, limit) == Some(w)
      && (PublicValue(rules, JsonSafe(w), depth, limit).Some?
        ==> PublicValue(rules, JsonSafe(w), depth, limit) == Some(JsonSafe(w)))
    decreases v
  {
    if IsSequence(v) {
      var ws := PublicItems(rules, v.items, depth + 1, limit).value;
      forall i | 0 <= i < |ws|
        ensures Plain(ws[i]) && PublicValue(rules, ws[i], depth + 1, limit) == Some(ws[i])
        ensures PublicValue(rules, JsonSafe(ws[i]), depth + 1, limit).Some?
            ==> PublicValue(rules, JsonSafe(ws[i]), depth + 1, limit) == Some(JsonSafe(ws[i]))
      {
        PublicValueSettled(rules, v.items[i], depth + 1, limit);
      }
      var again := PublicItems(rules, ws, depth + 1, limit);
      assert again.Some? && again.value == ws;
      var escaped := PublicItems(rules, JsonSafeItems(ws), depth + 1, limit);
      assert escaped.Some? ==> escaped.value == JsonSafeItems(ws);
    }
  }

  lemma FieldsSettled(allowed: set<string>, f: Normaliser, entries: seq<Entry>)
    requires Settled(f) && Fields(allowed, f, entries).Some?
    ensures var w := Fields(allowed, f, entries).value;
      && Plain(Dict(w))
      && Fields(allowed, f, w) == Some(w)
      && (Fields(allowed, f, JsonSafeEntries(w)).Some?
        ==> Fields(allowed, f, JsonSafeEntries(w)) == Some(JsonSafeEntries(w)))
  {
    var w := Fields(allowed, f, entries).value;
    forall i | 0 <= i < |w|
      ensures SettledAt(f, entries[i].key.name, entries[i].value)
    {
    }
    var again := Fields(allowed, f, w);
    assert again.Some? && again.value == w;
    var escaped := Fields(allowed, f, JsonSafeEntries(w));
    assert escaped.Some? ==> escaped.value == JsonSafeEntries(w);
  }

  lemma ObjectSettled(allowed: set<string>, f: Normaliser, v: Value)
    requires Settled(f) && Object(allowed, f, v).Some?
    ensures var w := Object(allowed, f, v).value;
      && Plain(w)
      && Object(allowed, f, w) == Some(w)
      && (Object(allowed, f, JsonSafe(w)).Some? ==> Object(allowed, f, JsonSafe(w)) == Some(JsonSafe(w)))
  {
    FieldsSettled(allowed, f, v.entries);
  }
}
