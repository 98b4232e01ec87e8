/** Frozen execution contexts: scan-authority bindings and parameter resolution (execution_context.py). */
module ExecutionContext {
  import opened Wrappers
  import opened Bytes
  import opened Values

  // ---- Insertion-ordered dictionaries ----

  /** A Python dictionary: its pairs in insertion order. */
  type Ordered<V> = seq<(string, V)>

  function Find<V>(d: Ordered<V>, key: string): Option<V> {
    if d == [] then None
    else if d[0].0 == key then Some(d[0].1)
    else Find(d[1..], key)
  }

  /** `d[key] = value`: a known key keeps its place. */
  function Put<V>(d: Ordered<V>, key: string, value: V): Ordered<V> {
    if d == [] then [(key, value)]
    else if d[0].0 == key then [(key, value)] + d[1..]
    else [d[0]] + Put(d[1..], key, value)
  }

  lemma {:induction false} FindPut<V>(d: Ordered<V>, key: string, value: V, other: string)
    ensures Find(Put(d, key, value), other) == if other == key then Some(value) else Find(d, other)
  {
    if d != [] && d[0].0 != key {
      FindPut(d[1..], key, value, other);
      assert Put(d, key, value)[1..] == Put(d[1..], key, value);
    } else if d != [] {
      assert Put(d, key, value)[1..] == d[1..];
    } else {
      assert Put(d, key, value)[1..] == [];
    }
  }

  /** Every pair stored in turn, under a renamed key. */
  function PutAll<V>(rename: string -> string, d: Ordered<V>, pairs: Ordered<V>): Ordered<V> {
    if pairs == [] then d
    else
      var last := pairs[|pairs| - 1];
      Put(PutAll(rename, d, pairs[..|pairs| - 1]), rename(last.0), last.1)
  }

  /** The last value stored under a key. */
  function Latest<V>(rename: string -> string, pairs: Ordered<V>, key: string): Option<V> {
    if pairs == [] then None
    else
      var last := pairs[|pairs| - 1];
      if rename(last.0) == key then Some(last.1) else Latest(rename, pairs[..|pairs| - 1], key)
  }

  function Or<V>(a: Option<V>, b: Option<V>): Option<V> {
    if a.Some? then a else b
  }

  lemma {:induction false} FindPutAll<V>(rename: string -> string, d: Ordered<V>, pairs: Ordered<V>, key: string)
    ensures Find(PutAll(rename, d, pairs), key) == Or(Latest(rename, pairs, key), Find(d, key))
  {
    if pairs != [] {
      var front, last := pairs[..|pairs| - 1], pairs[|pairs| - 1];
      FindPutAll(rename, d, front, key);
      FindPut(PutAll(rename, d, front), rename(last.0), last.1, key);
    }
  }

  // ---- The frozen context ----

  datatype Context = Context(
    projectId: Text,
    siteId: Text,
    configuration: Value,
    registers: seq<(Text, Text)>,
    imports: seq<(Text, Text)>,
    engine: Ordered<Value>,
    networkInterface: Option<Text>,
    connection: Ordered<Value>,
    secrets: Ordered<Text>,
    protocolKey: Option<Text>)

  /** Python text conversions, the secret store, canonical JSON and SHA-256. */
  datatype Env = Env(
    text: Value -> Text,
    lower: Text -> Text,
    toInt: Value -> Option<int>,
    affirmative: Value -> bool,
    fold: string -> string,
    resolve: Text -> Option<bytes>,
    decode: bytes -> Option<Text>,
    canonical: Value -> bytes,
    sha: Hash)

  // ---- Scan-authority bindings ----

  datatype Binding = Binding(digest: Text, count: nat)

  datatype BindError = NotAMapping | BadCount | MalformedBinding | NotInContext | Conflict

  datatype Parsed = Skipped | Parsed(id: Text, binding: Binding)

  /** Later resources win, as in a dictionary built in order. */
  function Digests(resources: seq<(Text, Text)>): map<Text, Text> {
    if resources == [] then map[]
    else
      var last := resources[|resources| - 1];
      Digests(resources[..|resources| - 1])[last.0 := last.1]
  }

  predicate IsHexText(t: Text) {
    |t| == 64 && forall c :: c in t ==> 48 <= c <= 57 || 97 <= c <= 102
  }

  function Member(entries: seq<Entry>, name: string): Value {
    if Lookup(entries, name).Some? then Lookup(entries, name).value else Null
  }

  function ParseCandidate(env: Env, digests: map<Text, Text>, candidate: Value): Result<Parsed, BindError> {
    match candidate
    case Null => Success(Skipped)
    case Dict(entries) =>
      var id := env.text(Member(entries, "import_id"));
      var digest := env.lower(env.text(Member(entries, "accepted_rows_sha256")));
      var count := env.toInt(Member(entries, "accepted_count"));
      if count.None? then Failure(BadCount)
      else if id == [] || !IsHexText(digest) || count.value < 0 then Failure(MalformedBinding)
      else if id !in digests || digests[id] != digest then Failure(NotInContext)
      else Success(Parsed(id, Binding(digest, count.value)))
    case _ => Failure(NotAMapping)
  }

  type Parser = Value -> Result<Parsed, BindError>

  function ParserFor(env: Env, digests: map<Text, Text>): Parser {
    candidate => ParseCandidate(env, digests, candidate)
  }

  function BindOne(bindings: map<Text, Binding>, parsed: Parsed): Result<map<Text, Binding>, BindError> {
    match parsed
    case Skipped => Success(bindings)
    case Parsed(id, binding) =>
      if id in bindings && bindings[id] != binding then Failure(Conflict) else Success(bindings[id := binding])
  }

  /** Candidates bound one after the other, each read by `parse`. */
  function BindAll(parse: Parser, candidates: seq<Value>): Result<map<Text, Binding>, BindError> {
    if candidates == [] then Success(map[])
    else
      var bindings :- BindAll(parse, candidates[..|candidates| - 1]);
      var parsed :- parse(candidates[|candidates| - 1]);
      BindOne(bindings, parsed)
  }

  /** The candidates a scan contract offers: the address authority, then the BACnet authorities in order. */
  function Candidates(engine: Ordered<Value>): seq<Value> {
    var contract: Option<Value> := Find(engine, "scan_contract_v1");
    if contract.None? || !contract.value.Dict? then []
    else
      (match Member(contract.value.entries, "ip")
       case Dict(ip) => [Member(ip, "authority")]
       case _ => [])
      + (match Member(contract.value.entries, "bacnet")
         case Dict(bacnet) =>
           (match Member(bacnet, "authorities")
            case Dict(authorities) => EntryValues(authorities)
            case _ => [])
         case _ => [])
  }

  function EntryValues(entries: seq<Entry>): seq<Value> {
    seq(|entries|, i requires 0 <= i < |entries| => entries[i].value)
  }

  function Bindings(env: Env, context: Context): Result<map<Text, Binding>, BindError> {
    BindAll(ParserFor(env, Digests(context.registers + context.imports)), Candidates(context.engine))
  }

  /** The loop of `scan_authority_bindings`. */
  method ScanAuthorityBindings(env: Env, context: Context) returns (r: Result<map<Text, Binding>, BindError>)
    ensures r == Bindings(env, context)
  {
    var candidates := Candidates(context.engine);
    var parse := ParserFor(env, Digests(context.registers + context.imports));
    var bindings := map[];
    for i := 0 to |candidates|
      invariant BindAll(parse, candidates[..i]) == Success(bindings)
    {
      BindNext(parse, candidates, i);
      var parsed := parse(candidates[i]);
      var next := if parsed.Failure? then Failure(parsed.error) else BindOne(bindings, parsed.value);
      if next.Failure? {
        FailureSticks(parse, candidates, i + 1);
        return next;
      }
      bindings := next.value;
    }
    assert candidates[..|candidates|] == candidates;
    r := Success(bindings);
  }

  lemma BindNext(parse: Parser, candidates: seq<Value>, i: nat)
    requires i < |candidates| && BindAll(parse, candidates[..i]).Success?
    ensures BindAll(parse, candidates[..i + 1]) ==
      if parse(candidates[i]).Failure? then Failure(parse(candidates[i]).error)
      else BindOne(BindAll(parse, candidates[..i]).value, parse(candidates[i]).value)
  {
    assert candidates[..i + 1][..i] == candidates[..i];
  }

  lemma {:induction false} FailureSticks(parse: Parser, candidates: seq<Value>, n: nat)
    requires n <= |candidates|
    ensures BindAll(parse, candidates[..n]).Failure? ==> BindAll(parse, candidates) == BindAll(parse, candidates[..n])
  {
    if n == |candidates| {
      assert candidates[..n] == candidates;
    } else {
      var front := candidates[..|candidates| - 1];
      assert front[..n] == candidates[..n];
      FailureSticks(parse, front, n);
    }
  }

  /** Some candidate binds the import this way. */
  ghost predicate Binds(parse: Parser, candidates: seq<Value>, id: Text, b: Binding) {
    exists c :: c in candidates && parse(c) == Success(Parsed(id, b))
  }

  /** Every candidate is well formed, and no two bind one import differently. */
  ghost predicate Consistent(parse: Parser, candidates: seq<Value>) {
    && (forall c :: c in candidates ==> parse(c).Success?)
    && (forall id, b, b' :: Binds(parse, candidates, id, b) && Binds(parse, candidates, id, b') ==> b == b')
  }

  predicate Holds(bindings: map<Text, Binding>, id: Text, b: Binding) {
    id in bindings && bindings[id] == b
  }

  /** The map says exactly what the candidates say, whatever their order. */
  ghost predicate Collects(parse: Parser, candidates: seq<Value>, bindings: map<Text, Binding>) {
    forall id, b :: Holds(bindings, id, b) <==> Binds(parse, candidates, id, b)
  }

  lemma BindsSnoc(parse: Parser, front: seq<Value>, last: Value, id: Text, b: Binding)
    ensures Binds(parse, front + [last], id, b)
       <==> Binds(parse, front, id, b) || parse(last) == Success(Parsed(id, b))
  {
    assert last in front + [last];
    forall c | c in front ensures c in front + [last] {
    }
  }

  lemma ConsistentFront(parse: Parser, front: seq<Value>, last: Value)
    requires Consistent(parse, front + [last])
    ensures Consistent(parse, front) && parse(last).Success?
  {
    assert last in front + [last];
    forall c | c in front ensures parse(c).Success? {
      assert c in front + [last];
    }
    forall id, b, b' | Binds(parse, front, id, b) && Binds(parse, front, id, b') ensures b == b' {
      BindsSnoc(parse, front, last, id, b);
      BindsSnoc(parse, front, last, id, b');
    }
  }

  lemma BindOneExact(parse: Parser, front: seq<Value>, last: Value, m: map<Text, Binding>)
    requires Consistent(parse, front) && Collects(parse, front, m) && parse(last).Success?
    ensures var next := BindOne(m, parse(last).value);
      && (next.Success? <==> Consistent(parse, front + [last]))
      && (next.Success? ==> Collects(parse, front + [last], next.value))
  {
    var next := BindOne(m, parse(last).value);
    forall id, b
      ensures Binds(parse, front + [last], id, b) <==> Holds(m, id, b) || parse(last) == Success(Parsed(id, b))
    {
      BindsSnoc(parse, front, last, id, b);
    }
    if parse(last).value.Parsed? {
      var Parsed(id, b) := parse(last).value;
      assert Binds(parse, front + [last], id, b);
      if id in m {
        assert Holds(m, id, m[id]) && Binds(parse, front + [last], id, m[id]);
      }
    }
    if next.Success? {
      forall c | c in front + [last] ensures parse(c).Success? {
        assert c in front || c == last;
      }
    }
  }

  /** Collection succeeds exactly on consistent candidates, and then holds exactly what they say. */
  lemma {:induction false} BindAllExact(parse: Parser, candidates: seq<Value>)
    ensures BindAll(parse, candidates).Success? <==> Consistent(parse, candidates)
    ensures BindAll(parse, candidates).Success? ==> Collects(parse, candidates, BindAll(parse, candidates).value)
  {
    if candidates != [] {
      var front, last := candidates[..|candidates| - 1], candidates[|candidates| - 1];
      assert candidates == front + [last];
      BindAllExact(parse, front);
      var before := BindAll(parse, front);
      if before.Success? && parse(last).Success? {
        BindOneExact(parse, front, last, before.value);
      } else if Consistent(parse, candidates) {
        ConsistentFront(parse, front, last);
      }
    }
  }

  /** Order does not matter: the same candidates in any order, repeated or not, bind alike or fail alike. */
  lemma BindingOrderIndependent(parse: Parser, a: seq<Value>, b: seq<Value>)
    requires forall c :: c in a <==> c in b
    ensures BindAll(parse, a).Success? <==> BindAll(parse, b).Success?
    ensures BindAll(parse, a).Success? ==> BindAll(parse, a) == BindAll(parse, b)
  {
    BindAllExact(parse, a);
    BindAllExact(parse, b);
    forall id, x ensures Binds(parse, a, id, x) == Binds(parse, b, id, x) {
    }
    assert Consistent(parse, a) == Consistent(parse, b);
    if BindAll(parse, a).Success? {
      SameBindings(parse, a, BindAll(parse, a).value, BindAll(parse, b).value, b);
    }
  }

  lemma SameBindings(parse: Parser, a: seq<Value>, m: map<Text, Binding>, n: map<Text, Binding>, b: seq<Value>)
    requires Collects(parse, a, m) && Collects(parse, b, n)
    requires forall id, x :: Binds(parse, a, id, x) == Binds(parse, b, id, x)
    ensures m == n
  {
    forall id, x ensures Holds(m, id, x) == Holds(n, id, x) {
      assert Holds(m, id, x) == Binds(parse, a, id, x);
      assert Holds(n, id, x) == Binds(parse, b, id, x);
    }
    forall id | id in m ensures id in n && n[id] == m[id] {
      assert Holds(m, id, m[id]);
    }
    forall id | id in n ensures id in m {
      assert Holds(n, id, n[id]);
    }
  }

  lemma {:induction false} ConflictHasTwo(parse: Parser, candidates: seq<Value>)
    returns (id: Text, b: Binding, b': Binding)
    requires BindAll(parse, candidates) == Failure(Conflict)
    requires forall c :: c in candidates ==> parse(c) != Failure(Conflict)
    ensures Binds(parse, candidates, id, b) && Binds(parse, candidates, id, b') && b != b'
  {
    var front, last := candidates[..|candidates| - 1], candidates[|candidates| - 1];
    assert candidates == front + [last];
    var before := BindAll(parse, front);
    if before.Failure? {
      id, b, b' := ConflictHasTwo(parse, front);
      BindsSnoc(parse, front, last, id, b);
      BindsSnoc(parse, front, last, id, b');
    } else {
      BindAllExact(parse, front);
      id, b' := parse(last).value.id, parse(last).value.binding;
      b := before.value[id];
      assert Holds(before.value, id, b);
      BindsSnoc(parse, front, last, id, b);
      BindsSnoc(parse, front, last, id, b');
    }
  }

  /** A binding carries the context's digest of its import. */
  lemma BindsContextDigest(env: Env, digests: map<Text, Text>, candidates: seq<Value>, id: Text, b: Binding)
    requires Binds(ParserFor(env, digests), candidates, id, b)
    ensures id in digests && b.digest == digests[id]
  {
    var c :| c in candidates && ParserFor(env, digests)(c) == Success(Parsed(id, b));
    assert ParseCandidate(env, digests, c) == Success(Parsed(id, b));
  }

  /** Bindings that conflict agree on the digest, so they differ in the row count alone. */
  lemma ConflictIsRowCount(env: Env, digests: map<Text, Text>, candidates: seq<Value>)
    requires BindAll(ParserFor(env, digests), candidates) == Failure(Conflict)
    ensures exists id, b, b' :: Binds(ParserFor(env, digests), candidates, id, b)
                             && Binds(ParserFor(env, digests), candidates, id, b')
                             && b.digest == b'.digest && b.count != b'.count
  {
    var parse := ParserFor(env, digests);
    forall c | c in candidates ensures parse(c) != Failure(Conflict) {
      assert parse(c) == ParseCandidate(env, digests, c);
    }
    var id, b, b' := ConflictHasTwo(parse, candidates);
    BindsContextDigest(env, digests, candidates, id, b);
    BindsContextDigest(env, digests, candidates, id, b');
  }

  // ---- Bound rows ----

  datatype VerifyError = BindingFails(error: BindError) | NotBound | CountChanged | DigestChanged

  function RowsDigest(env: Env, rows: seq<Value>): Text {
    TextOf(HexDigest(env.sha(env.canonical(List(rows)))))
  }

  function VerifyBoundImportRows(env: Env, context: Context, id: Text, rows: seq<Value>): Result<(), VerifyError> {
    match Bindings(env, context)
    case Failure(e) => Failure(BindingFails(e))
    case Success(bindings) =>
      if id !in bindings then Failure(NotBound)
      else if |rows| != bindings[id].count then Failure(CountChanged)
      else if RowsDigest(env, rows) != bindings[id].digest then Failure(DigestChanged)
      else Success(())
  }

  lemma TextOfInjective(a: string, b: string)
    requires TextOf(a) == TextOf(b)
    ensures a == b
  {
    assert |a| == |TextOf(a)| == |TextOf(b)| == |b|;
    forall i | 0 <= i < |a| ensures a[i] == b[i] {
      assert TextOf(a)[i] == TextOf(b)[i];
    }
  }

  /** Rows that verify are the bound rows: as many, and one canonical encoding, or the two encodings collide. */
  lemma VerifiedRowsAreBound(env: Env, context: Context, id: Text, rows: seq<Value>, bound: seq<Value>)
    requires VerifyBoundImportRows(env, context, id, rows).Success?
    requires Bindings(env, context).value[id] == Binding(RowsDigest(env, bound), |bound|)
    ensures |rows| == |bound|
    ensures env.canonical(List(rows)) == env.canonical(List(bound))
         || Collision(env.sha, env.canonical(List(rows)), env.canonical(List(bound)))
  {
    var a, b := env.sha(env.canonical(List(rows))), env.sha(env.canonical(List(bound)));
    TextOfInjective(HexDigest(a), HexDigest(b));
    HexInjective(a, b);
  }

  // ---- Layered parameters ----

  function ConnectionAlias(key: string): string {
    match key
    case "host" => "broker_host"
    case "port" => "broker_port"
    case "tls" => "use_tls"
    case "bind_address" => "local_address"
    case _ => key
  }

  function Same(key: string): string {
    key
  }

  function SectionValues(snapshot: Value, name: string): seq<Entry> {
    match snapshot
    case Dict(sections) =>
      (match Member(sections, name)
       case Dict(section) => (match Member(section, "values") case Dict(values) => values case _ => [])
       case _ => [])
    case _ => []
  }

  /** Section, key in the section, and engine parameter. */
  const DEFAULT_MAPPINGS: seq<(string, string, string)> := [
    ("mqtt", "MQTT Broker FQDN or IP Address", "broker_host"),
    ("mqtt", "Port", "broker_port"),
    ("mqtt", "Use TLS", "use_tls"),
    ("mqtt", "Keep Alive Interval", "keep_alive"),
    ("mqtt", "MQTT Username", "username"),
    ("mqtt", "MQTT Password", "password"),
    ("certificates", "CA Certificate", "ca_certificate"),
    ("certificates", "Client Certificate", "client_certificate"),
    ("certificates", "Private Key", "private_key"),
    ("certificates", "Key Password", "key_password")]

  function DefaultsFrom(snapshot: Value, mappings: seq<(string, string, string)>): Ordered<Value> {
    if mappings == [] then []
    else
      var (section, key, destination) := mappings[0];
      var value := Member(SectionValues(snapshot, section), key);
      (if value == Null || value == Str([]) then [] else [(destination, value)]) + DefaultsFrom(snapshot, mappings[1..])
  }

  predicate StartsWith(t: Option<Text>, prefix: string) {
    t.Some? && TextOf(prefix) <= t.value
  }

  function BeforeSlash(t: Text): Text {
    if t == [] || t[0] == 47 then [] else [t[0]] + BeforeSlash(t[1..])
  }

  /** What the network interface sets, if anything. */
  function InterfaceSetting(context: Context): Ordered<Value> {
    if context.networkInterface.None? || context.networkInterface.value == [] then []
    else if StartsWith(context.protocolKey, "bacnet:") then [("local_address", Str(context.networkInterface.value))]
    else [("source_ip", Str(BeforeSlash(context.networkInterface.value)))]
  }

  predicate UsesConnection(env: Env, publishes: bool, engine: Ordered<Value>) {
    var host := Find(engine, "broker_host");
    var live := Find(engine, "use_live_broker");
    || !publishes
    || (live.Some? && env.affirmative(live.value))
    || (host.Some? && env.text(host.value) != [])
  }

  /** Defaults, engine parameters, connection settings, network interface: each layer over the one before. */
  function Layered(env: Env, context: Context, publishes: bool): Ordered<Value> {
    var connected := UsesConnection(env, publishes, context.engine);
    var base := if connected then DefaultsFrom(context.configuration, DEFAULT_MAPPINGS) else [];
    var engine := PutAll(Same, base, context.engine);
    var connection := if connected then PutAll(ConnectionAlias, engine, context.connection) else engine;
    PutAll(Same, connection, InterfaceSetting(context))
  }

  /** Precedence of one parameter: interface, then connection, then engine, then configuration default. */
  lemma LayeredPrecedence(env: Env, context: Context, publishes: bool, key: string)
    ensures var connected := UsesConnection(env, publishes, context.engine);
      Find(Layered(env, context, publishes), key)
      == Or(Latest(Same, InterfaceSetting(context), key),
            Or(if connected then Latest(ConnectionAlias, context.connection, key) else None,
               Or(Latest(Same, context.engine, key),
                  if connected then Find(DefaultsFrom(context.configuration, DEFAULT_MAPPINGS), key) else None)))
  {
    var connected := UsesConnection(env, publishes, context.engine);
    var base := if connected then DefaultsFrom(context.configuration, DEFAULT_MAPPINGS) else [];
    var engine := PutAll(Same, base, context.engine);
    var connection := if connected then PutAll(ConnectionAlias, engine, context.connection) else engine;
    FindPutAll(Same, base, context.engine, key);
    FindPutAll(ConnectionAlias, engine, context.connection, key);
    FindPutAll(Same, connection, InterfaceSetting(context), key);
  }

  // ---- Secret references ----

  predicate IsReference(v: Value) {
    v.Str? && TextOf("secret://") <= v.t
  }

  function SetDefault(refs: Ordered<Text>, key: string, value: Value): Ordered<Text> {
    if IsReference(value) && Find(refs, key).None? then refs + [(key, value.t)] else refs
  }

  /** The context's references, then every parameter that still holds one under a key of its own. */
  function References(refs: Ordered<Text>, parameters: Ordered<Value>): Ordered<Text> {
    if parameters == [] then refs
    else
      var last := parameters[|parameters| - 1];
      SetDefault(References(refs, parameters[..|parameters| - 1]), last.0, last.1)
  }

  function AfterDot(key: string): string {
    if key == "" then ""
    else if key[|key| - 1] == '.' then ""
    else AfterDot(key[..|key| - 1]) + [key[|key| - 1]]
  }

  function Underscored(key: string): string {
    seq(|key|, i requires 0 <= i < |key| => if key[i] == ' ' || key[i] == '-' then '_' else key[i])
  }

  function Leaf(env: Env, key: string): string {
    Underscored(env.fold(AfterDot(key)))
  }

  function Destination(env: Env, key: string): string {
    match Leaf(env, key)
    case "mqtt_password" => "password"
    case "mqtt_username" => "username"
    case "mqtt_private_key" => "private_key"
    case "mqtt_client_certificate" => "client_certificate"
    case "mqtt_ca_certificate" => "ca_certificate"
    case "mqtt_key_password" => "key_password"
    case leaf => leaf
  }

  const TEXT_DESTINATIONS := {"password", "username", "key_password", "token", "access_token", "api_token"}

  datatype SecretError = Unavailable | NotText

  /** What a used reference leaves at its destination. */
  function Resolved(env: Env, destination: string, reference: Text): Result<Value, SecretError> {
    var material := env.resolve(reference);
    if material.None? then Failure(Unavailable)
    else if destination in TEXT_DESTINATIONS then
      var text := env.decode(material.value);
      if text.None? then Failure(NotText) else Success(Str(text.value))
    else Success(Str(reference))
  }

  function ResolveOne(env: Env, parameters: Ordered<Value>, key: string,
                      reference: Text): Result<Ordered<Value>, SecretError> {
    var destination := Destination(env, key);
    if Find(parameters, destination).None? && key != Leaf(env, key) then Success(parameters)
    else
      var value :- Resolved(env, destination, reference);
      Success(Put(parameters, destination, value))
  }

  function ResolveAll(env: Env, parameters: Ordered<Value>, refs: Ordered<Text>): Result<Ordered<Value>, SecretError> {
    if refs == [] then Success(parameters)
    else
      var before :- ResolveAll(env, parameters, refs[..|refs| - 1]);
      ResolveOne(env, before, refs[|refs| - 1].0, refs[|refs| - 1].1)
  }

  const OWN_KEYS := {"project_id", "site_id", "client_id"}

  /** The context's own identifiers, written last. */
  function Identified(context: Context, clientId: Text, parameters: Ordered<Value>): Ordered<Value> {
    var p := Put(Put(parameters, "project_id", Str(context.projectId)), "site_id", Str(context.siteId));
    if StartsWith(context.protocolKey, "mqtt:") then Put(p, "client_id", Str(clientId)) else p
  }

  function Resolution(env: Env, context: Context, publishes: bool,
                      clientId: Text): Result<Ordered<Value>, SecretError> {
    var parameters := Layered(env, context, publishes);
    var resolved :- ResolveAll(env, parameters, References(context.secrets, parameters));
    Success(Identified(context, clientId, resolved))
  }

  lemma {:induction false} ResolveFailureSticks(env: Env, parameters: Ordered<Value>, refs: Ordered<Text>, n: nat)
    requires n <= |refs| && ResolveAll(env, parameters, refs[..n]).Failure?
    ensures ResolveAll(env, parameters, refs) == ResolveAll(env, parameters, refs[..n])
  {
    if n == |refs| {
      assert refs[..n] == refs;
    } else {
      var front := refs[..|refs| - 1];
      assert front[..n] == refs[..n];
      ResolveFailureSticks(env, parameters, front, n);
    }
  }

  /** The loop that adds a reference for every parameter still holding one. */
  method CollectReferences(secrets: Ordered<Text>, parameters: Ordered<Value>) returns (references: Ordered<Text>)
    ensures references == References(secrets, parameters)
  {
    references := secrets;
    for i := 0 to |parameters|
      invariant references == References(secrets, parameters[..i])
    {
      assert parameters[..i + 1][..i] == parameters[..i];
      references := SetDefault(references, parameters[i].0, parameters[i].1);
    }
    assert parameters[..|parameters|] == parameters;
  }

  /** The loop that resolves one reference at a time. */
  method ResolveSecrets(env: Env, layered: Ordered<Value>, references: Ordered<Text>)
    returns (r: Result<Ordered<Value>, SecretError>)
    ensures r == ResolveAll(env, layered, references)
  {
    var parameters := layered;
    for i := 0 to |references|
      invariant ResolveAll(env, layered, references[..i]) == Success(parameters)
    {
      assert references[..i + 1][..i] == references[..i];
      var next := ResolveOne(env, parameters, references[i].0, references[i].1);
      if next.Failure? {
        ResolveFailureSticks(env, layered, references, i + 1);
        return Failure(next.error);
      }
      parameters := next.value;
    }
    assert references[..|references|] == references;
    r := Success(parameters);
  }

  /** `resolve_context_parameters`: the layering, the reference table, then one secret at a time. */
  method ResolveContextParameters(env: Env, context: Context, publishes: bool, clientId: Text)
    returns (r: Result<Ordered<Value>, SecretError>)
    ensures r == Resolution(env, context, publishes, clientId)
  {
    var parameters := Layered(env, context, publishes);
    var references := CollectReferences(context.secrets, parameters);
    var resolved := ResolveSecrets(env, parameters, references);
    if resolved.Failure? {
      return resolved;
    }
    r := Success(Identified(context, clientId, resolved.value));
  }

  // ---- What resolution leaves behind ----

  predicate OwnsLeaf(env: Env, key: string) {
    key == Leaf(env, key)
  }

  /** A destination exists once these references were read. */
  ghost predicate Known(env: Env, parameters: Ordered<Value>, refs: Ordered<Text>, destination: string) {
    || Find(parameters, destination).Some?
    || exists pair :: pair in refs && Destination(env, pair.0) == destination && OwnsLeaf(env, pair.0)
  }

  /** The reference is used: a layer, or a plainly named reference up to it, has its destination. */
  ghost predicate Used(env: Env, parameters: Ordered<Value>, refs: Ordered<Text>, i: nat)
    requires i < |refs|
  {
    Known(env, parameters, refs[..i + 1], Destination(env, refs[i].0))
  }

  predicate Resolves(env: Env, pair: (string, Text)) {
    Resolved(env, Destination(env, pair.0), pair.1).Success?
  }

  ghost predicate ResolvesAt(env: Env, parameters: Ordered<Value>, refs: Ordered<Text>, i: nat)
    requires i < |refs|
  {
    Used(env, parameters, refs, i) ==> Resolves(env, refs[i])
  }

  ghost predicate AllResolve(env: Env, parameters: Ordered<Value>, refs: Ordered<Text>) {
    forall i :: 0 <= i < |refs| ==> ResolvesAt(env, parameters, refs, i)
  }

  /** The last used reference with this destination. */
  ghost function Winner(env: Env, parameters: Ordered<Value>, refs: Ordered<Text>, destination: string): Option<Text> {
    if refs == [] then None
    else
      var last := refs[|refs| - 1];
      if Destination(env, last.0) == destination && Known(env, parameters, refs, destination) then Some(last.1)
      else Winner(env, parameters, refs[..|refs| - 1], destination)
  }

  /** What a destination holds in the end: its winner resolved, or its layered value. */
  ghost predicate Settles(env: Env, parameters: Ordered<Value>, refs: Ordered<Text>, result: Ordered<Value>,
                          d: string) {
    match Winner(env, parameters, refs, d)
    case None => Find(result, d) == Find(parameters, d)
    case Some(reference) =>
      Resolved(env, d, reference).Success? && Find(result, d) == Some(Resolved(env, d, reference).value)
  }

  lemma UsedPrefix(env: Env, parameters: Ordered<Value>, refs: Ordered<Text>, n: nat, i: nat)
    requires i < n <= |refs|
    ensures Used(env, parameters, refs, i) == Used(env, parameters, refs[..n], i)
  {
    assert refs[..i + 1] == refs[..n][..i + 1];
  }

  lemma AllResolveSnoc(env: Env, parameters: Ordered<Value>, refs: Ordered<Text>)
    requires refs != []
    ensures var n := |refs| - 1;
      AllResolve(env, parameters, refs) <==>
        AllResolve(env, parameters, refs[..n])
        && (Known(env, parameters, refs, Destination(env, refs[n].0)) ==> Resolves(env, refs[n]))
  {
    var n := |refs| - 1;
    var front := refs[..n];
    assert refs[..n + 1] == refs;
    assert ResolvesAt(env, parameters, refs, n)
      == (Known(env, parameters, refs, Destination(env, refs[n].0)) ==> Resolves(env, refs[n]));
    forall i | 0 <= i < n ensures ResolvesAt(env, parameters, refs, i) == ResolvesAt(env, parameters, front, i) {
      UsedPrefix(env, parameters, refs, n, i);
    }
  }

  /** A reference is skipped exactly when nothing has made its destination known. */
  lemma KnownSnoc(env: Env, parameters: Ordered<Value>, refs: Ordered<Text>, d: string)
    requires refs != []
    ensures var last := refs[|refs| - 1];
      Known(env, parameters, refs, d)
      <==> Known(env, parameters, refs[..|refs| - 1], d) || (Destination(env, last.0) == d && OwnsLeaf(env, last.0))
  {
    var front, last := refs[..|refs| - 1], refs[|refs| - 1];
    assert refs == front + [last];
  }

  /** Resolution succeeds exactly when every used reference resolves, and then settles every destination. */
  lemma {:induction false} ResolveAllExact(env: Env, parameters: Ordered<Value>, refs: Ordered<Text>)
    ensures ResolveAll(env, parameters, refs).Success? <==> AllResolve(env, parameters, refs)
    ensures ResolveAll(env, parameters, refs).Success? ==>
      var result := ResolveAll(env, parameters, refs).value;
      forall d :: Settles(env, parameters, refs, result, d)
               && (Find(result, d).Some? <==> Known(env, parameters, refs, d))
  {
    if refs != [] {
      var front, last := refs[..|refs| - 1], refs[|refs| - 1];
      ResolveAllExact(env, parameters, front);
      AllResolveSnoc(env, parameters, refs);
      var before := ResolveAll(env, parameters, front);
      if before.Success? {
        KnownSnoc(env, parameters, refs, Destination(env, last.0));
        if ResolveOne(env, before.value, last.0, last.1).Success? {
          forall d ensures Settles(env, parameters, refs, ResolveAll(env, parameters, refs).value, d)
                        && (Find(ResolveAll(env, parameters, refs).value, d).Some?
                          <==> Known(env, parameters, refs, d)) {
            ResolveStep(env, parameters, refs, before.value, d);
          }
        }
      }
    }
  }

  lemma ResolveStep(env: Env, parameters: Ordered<Value>, refs: Ordered<Text>, before: Ordered<Value>, d: string)
    requires refs != []
    requires var front := refs[..|refs| - 1];
      && Settles(env, parameters, front, before, d)
      && (Find(before, d).Some? <==> Known(env, parameters, front, d))
    requires ResolveOne(env, before, refs[|refs| - 1].0, refs[|refs| - 1].1).Success?
    ensures var after := ResolveOne(env, before, refs[|refs| - 1].0, refs[|refs| - 1].1).value;
      Settles(env, parameters, refs, after, d) && (Find(after, d).Some? <==> Known(env, parameters, refs, d))
  {
    var last := refs[|refs| - 1];
    KnownSnoc(env, parameters, refs, d);
    var destination := Destination(env, last.0);
    var value := Resolved(env, destination, last.1);
    if value.Success? {
      FindPut(before, destination, value.value, d);
    }
  }

  // ---- The two promises about secrets ----

  /** `strip` and `casefold` leave the six plain text destinations alone. */
  ghost predicate FoldsPlainly(env: Env) {
    forall d :: d in TEXT_DESTINATIONS ==> env.fold(d) == d
  }

  lemma {:induction false} NoDot(key: string)
    requires '.' !in key
    ensures AfterDot(key) == key
  {
    if key != "" {
      NoDot(key[..|key| - 1]);
    }
  }

  lemma TextDestinationIsPlain(d: string)
    requires d in TEXT_DESTINATIONS
    ensures |d| <= 12 && '.' !in d && ' ' !in d && '-' !in d
  {
  }

  lemma PlainIsUnderscored(d: string)
    requires ' ' !in d && '-' !in d
    ensures Underscored(d) == d
  {
    forall i | 0 <= i < |d| ensures Underscored(d)[i] == d[i] {
      assert d[i] in d;
    }
  }

  /** The renamed keys are longer than any text destination. */
  lemma ShortIsNotRenamed(env: Env, key: string)
    requires |Leaf(env, key)| <= 12
    ensures Destination(env, key) == Leaf(env, key)
  {
  }

  lemma TextDestinationIsItself(env: Env, d: string)
    requires FoldsPlainly(env) && d in TEXT_DESTINATIONS
    ensures Destination(env, d) == d && OwnsLeaf(env, d)
  {
    TextDestinationIsPlain(d);
    NoDot(d);
    PlainIsUnderscored(d);
    ShortIsNotRenamed(env, d);
  }

  lemma {:induction false} FoundIn<V>(d: Ordered<V>, key: string)
    requires Find(d, key).Some?
    ensures (key, Find(d, key).value) in d
  {
    if d[0].0 != key {
      FoundIn(d[1..], key);
    }
  }

  /** A parameter that holds a reference is in the reference table under its own key. */
  lemma {:induction false} ReferencesCover(refs: Ordered<Text>, parameters: Ordered<Value>, key: string, v: Value)
    requires (key, v) in parameters && IsReference(v)
    ensures exists r :: (key, r) in References(refs, parameters)
  {
    var front, last := parameters[..|parameters| - 1], parameters[|parameters| - 1];
    var before := References(refs, front);
    assert parameters == front + [last];
    if last == (key, v) {
      if Find(before, key).Some? {
        FoundIn(before, key);
        assert (key, Find(before, key).value) in References(refs, parameters);
      } else {
        assert (key, v.t) in References(refs, parameters);
      }
    } else {
      ReferencesCover(refs, front, key, v);
      var r :| (key, r) in before;
      assert (key, r) in References(refs, parameters);
    }
  }

  lemma {:induction false} WinnerExists(env: Env, parameters: Ordered<Value>, refs: Ordered<Text>, d: string,
                                        pair: (string, Text))
    requires pair in refs && Destination(env, pair.0) == d && Find(parameters, d).Some?
    ensures Winner(env, parameters, refs, d).Some?
  {
    var front, last := refs[..|refs| - 1], refs[|refs| - 1];
    assert refs == front + [last];
    if Destination(env, last.0) != d {
      WinnerExists(env, parameters, front, d, pair);
    }
  }

  lemma {:induction false} WinnerIsReference(env: Env, parameters: Ordered<Value>, refs: Ordered<Text>, d: string)
    requires Winner(env, parameters, refs, d).Some?
    ensures exists pair ::
      pair in refs && Destination(env, pair.0) == d && pair.1 == Winner(env, parameters, refs, d).value
  {
    var front, last := refs[..|refs| - 1], refs[|refs| - 1];
    assert refs == front + [last];
    if !(Destination(env, last.0) == d && Known(env, parameters, refs, d)) {
      WinnerIsReference(env, parameters, front, d);
    }
  }

  lemma IdentifiedElsewhere(context: Context, clientId: Text, parameters: Ordered<Value>, d: string)
    requires d !in OWN_KEYS
    ensures Find(Identified(context, clientId, parameters), d) == Find(parameters, d)
  {
    var p := Put(parameters, "project_id", Str(context.projectId));
    var q := Put(p, "site_id", Str(context.siteId));
    FindPut(parameters, "project_id", Str(context.projectId), d);
    FindPut(p, "site_id", Str(context.siteId), d);
    FindPut(q, "client_id", Str(clientId), d);
  }

  /** A text destination that holds a reference is decided by a reference. */
  lemma HeldReferenceWins(env: Env, secrets: Ordered<Text>, layered: Ordered<Value>, d: string)
    requires FoldsPlainly(env) && d in TEXT_DESTINATIONS
    requires Find(layered, d).Some? && IsReference(Find(layered, d).value)
    ensures Winner(env, layered, References(secrets, layered), d).Some?
  {
    var refs := References(secrets, layered);
    FoundIn(layered, d);
    ReferencesCover(secrets, layered, d, Find(layered, d).value);
    var r :| (d, r) in refs;
    TextDestinationIsItself(env, d);
    WinnerExists(env, layered, refs, d, (d, r));
  }

  /** The destination holds the decoded material of some reference in the table. */
  ghost predicate HoldsMaterial(env: Env, refs: Ordered<Text>, result: Ordered<Value>, d: string) {
    exists pair :: pair in refs && Destination(env, pair.0) == d
      && env.resolve(pair.1).Some? && env.decode(env.resolve(pair.1).value).Some?
      && Find(result, d) == Some(Str(env.decode(env.resolve(pair.1).value).value))
  }

  lemma SettledMaterial(env: Env, layered: Ordered<Value>, refs: Ordered<Text>, result: Ordered<Value>, d: string)
    requires d in TEXT_DESTINATIONS && Winner(env, layered, refs, d).Some? && Settles(env, layered, refs, result, d)
    ensures HoldsMaterial(env, refs, result, d)
  {
    WinnerIsReference(env, layered, refs, d);
  }

  lemma TextIsNotOwn(d: string)
    requires d in TEXT_DESTINATIONS
    ensures d !in OWN_KEYS
  {
  }

  lemma DecodedFrom(env: Env, context: Context, layered: Ordered<Value>, clientId: Text, d: string)
    requires FoldsPlainly(env) && d in TEXT_DESTINATIONS
    requires Find(layered, d).Some? && IsReference(Find(layered, d).value)
    requires ResolveAll(env, layered, References(context.secrets, layered)).Success?
    ensures var refs := References(context.secrets, layered);
      HoldsMaterial(env, refs, Identified(context, clientId, ResolveAll(env, layered, refs).value), d)
  {
    var refs := References(context.secrets, layered);
    var resolved := ResolveAll(env, layered, refs).value;
    HeldReferenceWins(env, context.secrets, layered, d);
    ResolveAllExact(env, layered, refs);
    SettledMaterial(env, layered, refs, resolved, d);
    TextIsNotOwn(d);
    IdentifiedElsewhere(context, clientId, resolved, d);
  }

  /** Every text destination whose layered value is a secret reference ends with decoded material. */
  lemma TextDestinationsDecoded(env: Env, context: Context, publishes: bool, clientId: Text, d: string)
    requires FoldsPlainly(env) && d in TEXT_DESTINATIONS
    requires Resolution(env, context, publishes, clientId).Success?
    requires var held := Find(Layered(env, context, publishes), d); held.Some? && IsReference(held.value)
    ensures HoldsMaterial(env, References(context.secrets, Layered(env, context, publishes)),
                          Resolution(env, context, publishes, clientId).value, d)
  {
    DecodedFrom(env, context, Layered(env, context, publishes), clientId, d);
  }

  /** No other destination ever sees material: it ends with its last used reference, or with its layered value. */
  lemma OpaqueDestinationsStayOpaque(env: Env, context: Context, publishes: bool, clientId: Text, d: string)
    requires d !in TEXT_DESTINATIONS && d !in OWN_KEYS
    requires Resolution(env, context, publishes, clientId).Success?
    ensures var layered := Layered(env, context, publishes);
      var winner := Winner(env, layered, References(context.secrets, layered), d);
      Find(Resolution(env, context, publishes, clientId).value, d)
      == if winner.Some? then Some(Str(winner.value)) else Find(layered, d)
  {
    var layered := Layered(env, context, publishes);
    var refs := References(context.secrets, layered);
    ResolveAllExact(env, layered, refs);
    assert Settles(env, layered, refs, ResolveAll(env, layered, refs).value, d);
    IdentifiedElsewhere(context, clientId, ResolveAll(env, layered, refs).value, d);
  }
}
