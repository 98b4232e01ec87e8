/** Where a resolved parameter comes from, told from the frozen context itself. */
module ContextMeaning {
  import opened Wrappers
  import opened Values
  import opened ExecutionContext

  // ---- Where a reference belongs ----

  /** What follows the last dot of a key, or all of it. */
  predicate FollowsLastDot(key: string, s: string) {
    && |s| <= |key| && key[|key| - |s|..] == s && '.' !in s
    && (|s| < |key| ==> key[|key| - |s| - 1] == '.')
  }

  /** Folded, with blanks and dashes turned into underscores. */
  predicate IsUnderscored(t: string, leaf: string) {
    |leaf| == |t| && forall i :: 0 <= i < |t| ==>
      leaf[i] == if t[i] == ' ' || t[i] == '-' then '_' else t[i]
  }

  ghost predicate LeafIs(env: Env, key: string, leaf: string) {
    exists s :: FollowsLastDot(key, s) && IsUnderscored(env.fold(s), leaf)
  }

  /** The six configuration names go to the engines' names; every other name stands for itself. */
  predicate GoesTo(leaf: string, d: string) {
    || (leaf == "mqtt_password" && d == "password")
    || (leaf == "mqtt_username" && d == "username")
    || (leaf == "mqtt_private_key" && d == "private_key")
    || (leaf == "mqtt_client_certificate" && d == "client_certificate")
    || (leaf == "mqtt_ca_certificate" && d == "ca_certificate")
    || (leaf == "mqtt_key_password" && d == "key_password")
    || (d == leaf && leaf !in {
          "mqtt_password", "mqtt_username", "mqtt_private_key", "mqtt_client_certificate", "mqtt_ca_certificate",
          "mqtt_key_password"})
  }

  lemma {:induction false} AfterDotFollows(key: string)
    ensures FollowsLastDot(key, AfterDot(key))
  {
    if key != "" && key[|key| - 1] != '.' {
      var front := key[..|key| - 1];
      AfterDotFollows(front);
      assert key == front + [key[|key| - 1]];
    }
  }

  lemma DotInLonger(key: string, a: nat, b: nat)
    ensures a < b <= |key| && key[|key| - a - 1] == '.' ==> '.' in key[|key| - b..]
  {
    if a < b <= |key| {
      assert key[|key| - b..][b - a - 1] == key[|key| - a - 1];
    }
  }

  lemma OneTail(key: string, s: string, t: string)
    requires FollowsLastDot(key, s) && FollowsLastDot(key, t)
    ensures s == t
  {
    DotInLonger(key, |s|, |t|);
    DotInLonger(key, |t|, |s|);
  }

  lemma LeafExact(env: Env, key: string, leaf: string)
    ensures Leaf(env, key) == leaf <==> LeafIs(env, key, leaf)
  {
    AfterDotFollows(key);
    forall s | FollowsLastDot(key, s) ensures s == AfterDot(key) {
      OneTail(key, s, AfterDot(key));
    }
    forall t: string, l: string ensures Underscored(t) == l <==> IsUnderscored(t, l) {
      UnderscoredExact(t, l);
    }
  }

  lemma UnderscoredExact(t: string, leaf: string)
    ensures Underscored(t) == leaf <==> IsUnderscored(t, leaf)
  {
  }

  lemma GoesToMeaning(env: Env, key: string, d: string)
    ensures Destination(env, key) == d <==> GoesTo(Leaf(env, key), d)
  {
  }

  /** Where a reference under a key belongs. */
  lemma DestinationExact(env: Env, key: string, d: string)
    ensures Destination(env, key) == d <==> exists leaf :: LeafIs(env, key, leaf) && GoesTo(leaf, d)
  {
    GoesToMeaning(env, key, d);
    forall leaf ensures Leaf(env, key) == leaf <==> LeafIs(env, key, leaf) {
      LeafExact(env, key, leaf);
    }
  }

  // ---- The layers ----

  /** Four connection settings go by another name in the engines. */
  predicate Sets(setting: string, key: string) {
    || (setting == "host" && key == "broker_host")
    || (setting == "port" && key == "broker_port")
    || (setting == "tls" && key == "use_tls")
    || (setting == "bind_address" && key == "local_address")
    || (key == setting && setting !in {"host", "port", "tls", "bind_address"})
  }

  /** The configuration section and entry a parameter defaults to. */
  predicate DefaultsTo(key: string, section: string, name: string) {
    || (section == "mqtt" && (
          || (key == "broker_host" && name == "MQTT Broker FQDN or IP Address")
          || (key == "broker_port" && name == "Port")
          || (key == "use_tls" && name == "Use TLS")
          || (key == "keep_alive" && name == "Keep Alive Interval")
          || (key == "username" && name == "MQTT Username")
          || (key == "password" && name == "MQTT Password")))
    || (section == "certificates" && (
          || (key == "ca_certificate" && name == "CA Certificate")
          || (key == "client_certificate" && name == "Client Certificate")
          || (key == "private_key" && name == "Private Key")
          || (key == "key_password" && name == "Key Password")))
  }

  /** A section's entry, unless it is missing, null or empty. */
  ghost predicate Configured(snapshot: Value, section: string, name: string, v: Value) {
    && v != Null && v != Str([])
    && snapshot.Dict? && exists s, values ::
      && Lookup(snapshot.entries, section) == Some(Dict(s)) && Lookup(s, "values") == Some(Dict(values))
      && Lookup(values, name) == Some(v)
  }

  lemma SectionExact(snapshot: Value, section: string, name: string, v: Value)
    requires v != Null
    ensures Member(SectionValues(snapshot, section), name) == v <==>
      snapshot.Dict? && exists s, values ::
        && Lookup(snapshot.entries, section) == Some(Dict(s)) && Lookup(s, "values") == Some(Dict(values))
        && Lookup(values, name) == Some(v)
  {
    if snapshot.Dict? && Lookup(snapshot.entries, section).Some? && Lookup(snapshot.entries, section).value.Dict? {
      var s := Lookup(snapshot.entries, section).value.entries;
      if Lookup(s, "values").Some? && Lookup(s, "values").value.Dict? {
        assert SectionValues(snapshot, section) == Lookup(s, "values").value.entries;
      }
    }
  }

  /** Some mapping gives the parameter its default. */
  ghost predicate DefaultOf(snapshot: Value, mappings: seq<(string, string, string)>, key: string, v: Value) {
    exists i :: 0 <= i < |mappings| && mappings[i].2 == key && Configured(snapshot, mappings[i].0, mappings[i].1, v)
  }

  ghost predicate DistinctTargets(mappings: seq<(string, string, string)>) {
    forall i, j :: 0 <= i < j < |mappings| ==> mappings[i].2 != mappings[j].2
  }

  lemma DefaultSplit(snapshot: Value, mappings: seq<(string, string, string)>, key: string, v: Value)
    requires mappings != []
    ensures DefaultOf(snapshot, mappings, key, v) <==>
      || (mappings[0].2 == key && Configured(snapshot, mappings[0].0, mappings[0].1, v))
      || DefaultOf(snapshot, mappings[1..], key, v)
  {
    var rest := mappings[1..];
    assert forall i :: 0 < i < |mappings| ==> mappings[i] == rest[i - 1];
    if DefaultOf(snapshot, rest, key, v) {
      var i :| 0 <= i < |rest| && rest[i].2 == key && Configured(snapshot, rest[i].0, rest[i].1, v);
      assert mappings[i + 1] == rest[i];
    }
  }

  lemma {:induction false} DefaultsFromExact(snapshot: Value, mappings: seq<(string, string, string)>, key: string,
                                            v: Value)
    requires DistinctTargets(mappings)
    ensures Find(DefaultsFrom(snapshot, mappings), key) == Some(v) <==> DefaultOf(snapshot, mappings, key, v)
  {
    if mappings != [] {
      var (section, name, target) := mappings[0];
      var value := Member(SectionValues(snapshot, section), name);
      var rest := DefaultsFrom(snapshot, mappings[1..]);
      DefaultsFromExact(snapshot, mappings[1..], key, v);
      DefaultSplit(snapshot, mappings, key, v);
      FirstDefault(snapshot, section, name, v);
      assert ([(target, value)] + rest)[1..] == rest && [] + rest == rest;
      if target == key {
        assert !DefaultOf(snapshot, mappings[1..], key, v);
      }
    }
  }

  lemma FirstDefault(snapshot: Value, section: string, name: string, v: Value)
    ensures Configured(snapshot, section, name, v)
       <==> v != Null && v != Str([]) && Member(SectionValues(snapshot, section), name) == v
  {
    if v != Null {
      SectionExact(snapshot, section, name, v);
    }
  }

  lemma ShippedDefaults(key: string, section: string, name: string)
    ensures DefaultsTo(key, section, name)
       <==> exists i :: 0 <= i < |DEFAULT_MAPPINGS| && DEFAULT_MAPPINGS[i] == (section, name, key)
  {
    assert |DEFAULT_MAPPINGS| == 10;
    assert forall i :: 0 <= i < 10 ==>
      DefaultsTo(DEFAULT_MAPPINGS[i].2, DEFAULT_MAPPINGS[i].0, DEFAULT_MAPPINGS[i].1);
    assert DEFAULT_MAPPINGS[0] == ("mqtt", "MQTT Broker FQDN or IP Address", "broker_host");
    assert DEFAULT_MAPPINGS[1] == ("mqtt", "Port", "broker_port");
    assert DEFAULT_MAPPINGS[2] == ("mqtt", "Use TLS", "use_tls");
    assert DEFAULT_MAPPINGS[3] == ("mqtt", "Keep Alive Interval", "keep_alive");
    assert DEFAULT_MAPPINGS[4] == ("mqtt", "MQTT Username", "username");
    assert DEFAULT_MAPPINGS[5] == ("mqtt", "MQTT Password", "password");
    assert DEFAULT_MAPPINGS[6] == ("certificates", "CA Certificate", "ca_certificate");
    assert DEFAULT_MAPPINGS[7] == ("certificates", "Client Certificate", "client_certificate");
    assert DEFAULT_MAPPINGS[8] == ("certificates", "Private Key", "private_key");
    assert DEFAULT_MAPPINGS[9] == ("certificates", "Key Password", "key_password");
  }

  lemma ShippedTargetsDistinct()
    ensures DistinctTargets(DEFAULT_MAPPINGS)
  {
  }

  /** The parameter's default: the entry it is mapped to, if that is configured. */
  ghost predicate HasDefault(snapshot: Value, key: string, v: Value) {
    exists section, name :: DefaultsTo(key, section, name) && Configured(snapshot, section, name, v)
  }

  lemma DefaultsExact(snapshot: Value, key: string, v: Value)
    ensures Find(DefaultsFrom(snapshot, DEFAULT_MAPPINGS), key) == Some(v) <==> HasDefault(snapshot, key, v)
  {
    ShippedTargetsDistinct();
    DefaultsFromExact(snapshot, DEFAULT_MAPPINGS, key, v);
    forall section, name
      ensures DefaultsTo(key, section, name)
         <==> exists i :: 0 <= i < |DEFAULT_MAPPINGS| && DEFAULT_MAPPINGS[i] == (section, name, key)
    {
      ShippedDefaults(key, section, name);
    }
    forall i | 0 <= i < |DEFAULT_MAPPINGS| && DEFAULT_MAPPINGS[i].2 == key
      ensures DefaultsTo(key, DEFAULT_MAPPINGS[i].0, DEFAULT_MAPPINGS[i].1)
    {
      ShippedDefaults(key, DEFAULT_MAPPINGS[i].0, DEFAULT_MAPPINGS[i].1);
    }
  }

  predicate Under(rename: string -> string, pairs: Ordered<Value>, i: nat, key: string)
    requires i < |pairs|
  {
    rename(pairs[i].0) == key
  }

  /** Pair `i` is the last stored under the key. */
  ghost predicate LastUnder(rename: string -> string, pairs: Ordered<Value>, i: nat, key: string) {
    i < |pairs| && Under(rename, pairs, i, key) && forall j :: i < j < |pairs| ==> !Under(rename, pairs, j, key)
  }

  lemma {:induction false} LatestExact(rename: string -> string, pairs: Ordered<Value>, key: string)
    ensures Latest(rename, pairs, key).None? <==> forall i :: 0 <= i < |pairs| ==> !Under(rename, pairs, i, key)
    ensures forall i: nat :: LastUnder(rename, pairs, i, key) ==> Latest(rename, pairs, key) == Some(pairs[i].1)
  {
    if pairs != [] {
      var n := |pairs| - 1;
      var front := pairs[..n];
      LatestExact(rename, front, key);
      forall i | 0 <= i < n ensures Under(rename, front, i, key) == Under(rename, pairs, i, key) {
      }
      if !Under(rename, pairs, n, key) {
        forall i: nat | LastUnder(rename, pairs, i, key) ensures LastUnder(rename, front, i, key) {
        }
      }
    }
  }

  // ---- One parameter ----

  lemma SetsMeaning(setting: string, key: string)
    ensures ConnectionAlias(setting) == key <==> Sets(setting, key)
  {
  }

  /** The interface names the address to bind for BACnet, and the source address, without its prefix length, for the
    * others. */
  ghost predicate InterfaceGives(context: Context, key: string, v: Value) {
    && context.networkInterface.Some? && context.networkInterface.value != []
    && var name := context.networkInterface.value;
    if context.protocolKey.Some? && TextOf("bacnet:") <= context.protocolKey.value then
      key == "local_address" && v == Str(name)
    else
      key == "source_ip" && v.Str? && v.t <= name && 47 !in v.t && (v.t == name || name[|v.t|] == 47)
  }

  predicate CutsAtSlash(name: Text, t: Text) {
    t <= name && 47 !in t && (t == name || name[|t|] == 47)
  }

  lemma {:induction false} BeforeSlashCuts(name: Text)
    ensures CutsAtSlash(name, BeforeSlash(name))
  {
    if name != [] && name[0] != 47 {
      BeforeSlashCuts(name[1..]);
    }
  }

  /** Only one text ends at the first slash. */
  lemma OneCut(name: Text, s: Text, t: Text)
    requires CutsAtSlash(name, s) && CutsAtSlash(name, t)
    ensures s == t
  {
  }

  lemma LatestOfOne(name: string, value: Value, key: string)
    ensures Latest(Same, [(name, value)], key) == if name == key then Some(value) else None
  {
    assert [(name, value)][..0] == [];
  }

  lemma SourceExact(name: Text, v: Value)
    ensures v == Str(BeforeSlash(name))
       <==> v.Str? && v.t <= name && 47 !in v.t && (v.t == name || name[|v.t|] == 47)
  {
    BeforeSlashCuts(name);
    if v.Str? && CutsAtSlash(name, v.t) {
      OneCut(name, v.t, BeforeSlash(name));
    }
  }

  lemma InterfaceExact(context: Context, key: string, v: Value)
    ensures Latest(Same, InterfaceSetting(context), key) == Some(v) <==> InterfaceGives(context, key, v)
  {
    if context.networkInterface.Some? && context.networkInterface.value != [] {
      var name := context.networkInterface.value;
      SourceExact(name, v);
      LatestOfOne("local_address", Str(name), key);
      LatestOfOne("source_ip", Str(BeforeSlash(name)), key);
    }
  }

  /** A publish that goes nowhere near a broker leaves the frozen connection alone. */
  predicate Connects(env: Env, context: Context, publishes: bool) {
    || !publishes
    || (Find(context.engine, "use_live_broker").Some? && env.affirmative(Find(context.engine, "use_live_broker").value))
    || (Find(context.engine, "broker_host").Some? && env.text(Find(context.engine, "broker_host").value) != [])
  }

  ghost predicate ConnectionGives(pairs: Ordered<Value>, key: string, v: Value) {
    exists i :: 0 <= i < |pairs| && Sets(pairs[i].0, key) && pairs[i].1 == v
      && forall j :: i < j < |pairs| ==> !Sets(pairs[j].0, key)
  }

  ghost predicate EngineGives(pairs: Ordered<Value>, key: string, v: Value) {
    exists i :: 0 <= i < |pairs| && pairs[i].0 == key && pairs[i].1 == v
      && forall j :: i < j < |pairs| ==> pairs[j].0 != key
  }

  lemma ConnectionExact(pairs: Ordered<Value>, key: string, v: Value)
    ensures Latest(ConnectionAlias, pairs, key) == Some(v) <==> ConnectionGives(pairs, key, v)
  {
    LatestExact(ConnectionAlias, pairs, key);
    forall i | 0 <= i < |pairs| ensures Under(ConnectionAlias, pairs, i, key) <==> Sets(pairs[i].0, key) {
      SetsMeaning(pairs[i].0, key);
    }
    if Latest(ConnectionAlias, pairs, key).Some? {
      var i := LastIndex(ConnectionAlias, pairs, key);
    }
    forall i | 0 <= i < |pairs| && Sets(pairs[i].0, key) && forall j :: i < j < |pairs| ==> !Sets(pairs[j].0, key)
      ensures LastUnder(ConnectionAlias, pairs, i, key)
    {
    }
  }

  lemma {:induction false} LastIndex(rename: string -> string, pairs: Ordered<Value>, key: string) returns (i: nat)
    requires Latest(rename, pairs, key).Some?
    ensures LastUnder(rename, pairs, i, key)
  {
    var n := |pairs| - 1;
    if Under(rename, pairs, n, key) {
      i := n;
    } else {
      i := LastIndex(rename, pairs[..n], key);
      forall j | 0 <= j < n ensures Under(rename, pairs[..n], j, key) == Under(rename, pairs, j, key) {
      }
    }
  }

  lemma EngineExact(pairs: Ordered<Value>, key: string, v: Value)
    ensures Latest(Same, pairs, key) == Some(v) <==> EngineGives(pairs, key, v)
  {
    LatestExact(Same, pairs, key);
    forall i | 0 <= i < |pairs| ensures Under(Same, pairs, i, key) <==> pairs[i].0 == key {
    }
    if Latest(Same, pairs, key).Some? {
      var i := LastIndex(Same, pairs, key);
    }
    forall i | 0 <= i < |pairs| && pairs[i].0 == key && forall j :: i < j < |pairs| ==> pairs[j].0 != key
      ensures LastUnder(Same, pairs, i, key)
    {
    }
  }

  /** A layered parameter is the first of these that gives it: the interface, a connection setting, an engine parameter,
    * a configured default; the second and last only when the run connects. */
  ghost predicate LayersGive(env: Env, context: Context, publishes: bool, key: string, v: Value) {
    var connects := Connects(env, context, publishes);
    if exists x :: InterfaceGives(context, key, x) then InterfaceGives(context, key, v)
    else if connects && exists x :: ConnectionGives(context.connection, key, x) then
      ConnectionGives(context.connection, key, v)
    else if exists x :: EngineGives(context.engine, key, x) then EngineGives(context.engine, key, v)
    else connects && HasDefault(context.configuration, key, v)
  }

  lemma LayeredExact(env: Env, context: Context, publishes: bool, key: string, v: Value)
    ensures Find(Layered(env, context, publishes), key) == Some(v) <==> LayersGive(env, context, publishes, key, v)
  {
    LayeredPrecedence(env, context, publishes, key);
    DefaultsExact(context.configuration, key, v);
    forall x
      ensures Latest(Same, InterfaceSetting(context), key) == Some(x) <==> InterfaceGives(context, key, x)
      ensures Latest(ConnectionAlias, context.connection, key) == Some(x)
         <==> ConnectionGives(context.connection, key, x)
      ensures Latest(Same, context.engine, key) == Some(x) <==> EngineGives(context.engine, key, x)
    {
      InterfaceExact(context, key, x);
      ConnectionExact(context.connection, key, x);
      EngineExact(context.engine, key, x);
    }
  }

  // ---- References and the material they stand for ----

  /** The reference table: the context's own pairs, then each parameter that holds a reference under a key not yet
    * there. */
  lemma {:induction false} ReferencesExact(secrets: Ordered<Text>, parameters: Ordered<Value>, key: string, r: Text)
    requires forall i, j :: 0 <= i < j < |parameters| ==> parameters[i].0 != parameters[j].0
    ensures (key, r) in References(secrets, parameters) <==>
      || (key, r) in secrets
      || ((forall pair :: pair in secrets ==> pair.0 != key)
          && TextOf("secret://") <= r && (key, Str(r)) in parameters)
    ensures (exists x :: (key, x) in References(secrets, parameters))
       <==> Find(References(secrets, parameters), key).Some?
  {
    if parameters == [] {
      FoundIff(secrets, key);
    } else {
      var front, last := parameters[..|parameters| - 1], parameters[|parameters| - 1];
      assert parameters == front + [last];
      forall x
        ensures (key, x) in References(secrets, front) <==>
          || (key, x) in secrets
          || ((forall pair :: pair in secrets ==> pair.0 != key)
              && TextOf("secret://") <= x && (key, Str(x)) in front)
      {
        ReferencesExact(secrets, front, key, x);
      }
      FoundIff(References(secrets, parameters), key);
      FoundIff(References(secrets, front), key);
      assert last.0 == key ==> forall x :: (key, x) !in front;
      assert (exists pair :: pair in secrets && pair.0 == key) <==> exists x :: (key, x) in secrets;
    }
  }

  lemma {:induction false} FoundIff(d: Ordered<Text>, key: string)
    ensures Find(d, key).Some? <==> exists x :: (key, x) in d
  {
    if d != [] {
      FoundIff(d[1..], key);
      assert d == [d[0]] + d[1..];
      assert forall pair :: pair in d <==> pair == d[0] || pair in d[1..];
      if d[0].0 == key {
        assert (key, d[0].1) in d;
      }
    }
  }

  predicate Belongs(env: Env, refs: Ordered<Text>, i: nat, d: string)
    requires i < |refs|
  {
    Destination(env, refs[i].0) == d
  }

  /** Reference `i` is the last that belongs at the destination. */
  ghost predicate LastAt(env: Env, refs: Ordered<Text>, i: nat, d: string) {
    i < |refs| && Belongs(env, refs, i, d) && forall j :: i < j < |refs| ==> !Belongs(env, refs, j, d)
  }

  /** A layer gives the destination, or a reference bears its plain name. */
  ghost predicate Wanted(env: Env, layered: Ordered<Value>, refs: Ordered<Text>, d: string) {
    || Find(layered, d).Some?
    || exists i :: 0 <= i < |refs| && Belongs(env, refs, i, d) && LeafIs(env, refs[i].0, refs[i].0)
  }

  lemma WantedIsKnown(env: Env, layered: Ordered<Value>, refs: Ordered<Text>, d: string)
    ensures Known(env, layered, refs, d) <==> Wanted(env, layered, refs, d)
  {
    forall i | 0 <= i < |refs| ensures OwnsLeaf(env, refs[i].0) <==> LeafIs(env, refs[i].0, refs[i].0) {
      LeafExact(env, refs[i].0, refs[i].0);
    }
    forall pair | pair in refs && Destination(env, pair.0) == d && OwnsLeaf(env, pair.0)
      ensures Wanted(env, layered, refs, d)
    {
      var i :| 0 <= i < |refs| && refs[i] == pair;
      assert Belongs(env, refs, i, d);
    }
  }

  lemma {:induction false} NoneBelongs(env: Env, layered: Ordered<Value>, refs: Ordered<Text>, d: string)
    requires forall i :: 0 <= i < |refs| ==> !Belongs(env, refs, i, d)
    ensures Winner(env, layered, refs, d).None?
  {
    if refs != [] {
      var n := |refs| - 1;
      assert !Belongs(env, refs, n, d);
      forall i | 0 <= i < n ensures Belongs(env, refs[..n], i, d) == Belongs(env, refs, i, d) {
      }
      NoneBelongs(env, layered, refs[..n], d);
    }
  }

  lemma WinnerLast(env: Env, layered: Ordered<Value>, refs: Ordered<Text>, d: string)
    requires refs != [] && Belongs(env, refs, |refs| - 1, d)
    ensures Winner(env, layered, refs, d) == if Known(env, layered, refs, d) then Some(refs[|refs| - 1].1) else None
  {
    NoneKnown(env, layered, refs, d);
  }

  lemma WinnerFront(env: Env, layered: Ordered<Value>, refs: Ordered<Text>, d: string)
    requires refs != [] && !Belongs(env, refs, |refs| - 1, d)
    ensures Winner(env, layered, refs, d) == Winner(env, layered, refs[..|refs| - 1], d)
    ensures Known(env, layered, refs, d) == Known(env, layered, refs[..|refs| - 1], d)
  {
    KnownSnoc(env, layered, refs, d);
  }

  lemma LastAtFront(env: Env, refs: Ordered<Text>, i: nat, d: string)
    requires LastAt(env, refs, i, d) && i < |refs| - 1
    ensures !Belongs(env, refs, |refs| - 1, d) && LastAt(env, refs[..|refs| - 1], i, d)
  {
    var front := refs[..|refs| - 1];
    forall j | 0 <= j < |front| ensures Belongs(env, front, j, d) == Belongs(env, refs, j, d) {
    }
    assert LastAt(env, front, i, d);
  }

  lemma {:induction false} WinnerExact(env: Env, layered: Ordered<Value>, refs: Ordered<Text>, i: nat, d: string)
    requires LastAt(env, refs, i, d)
    ensures Winner(env, layered, refs, d) == if Known(env, layered, refs, d) then Some(refs[i].1) else None
  {
    if i == |refs| - 1 {
      WinnerLast(env, layered, refs, d);
    } else {
      LastAtFront(env, refs, i, d);
      WinnerExact(env, layered, refs[..|refs| - 1], i, d);
      WinnerFront(env, layered, refs, d);
    }
  }

  lemma {:induction false} NoneKnown(env: Env, layered: Ordered<Value>, refs: Ordered<Text>, d: string)
    ensures !Known(env, layered, refs, d) ==> Winner(env, layered, refs, d).None?
  {
    if refs != [] {
      NoneKnown(env, layered, refs[..|refs| - 1], d);
      KnownSnoc(env, layered, refs, d);
    }
  }

  /** What the last reference that belongs at a destination leaves there: text for the six text destinations, and for
    * the others the reference itself, once its material was found. */
  predicate Leaves(env: Env, d: string, reference: Text, v: Value) {
    && env.resolve(reference).Some?
    && if d in {"password", "username", "key_password", "token", "access_token", "api_token"} then
         env.decode(env.resolve(reference).value).Some? && v == Str(env.decode(env.resolve(reference).value).value)
       else v == Str(reference)
  }

  /** A destination holds what the last reference that belongs there leaves, if one does and the destination is wanted,
    * and otherwise what it held before. */
  ghost predicate HoldsFinal(env: Env, layered: Ordered<Value>, refs: Ordered<Text>, result: Ordered<Value>,
                             d: string)
  {
    && (forall i: nat :: LastAt(env, refs, i, d) && Wanted(env, layered, refs, d) ==>
          Find(result, d).Some? && Leaves(env, d, refs[i].1, Find(result, d).value))
    && ((forall i :: 0 <= i < |refs| ==> !Belongs(env, refs, i, d)) || !Wanted(env, layered, refs, d) ==>
          Find(result, d) == Find(layered, d))
  }

  lemma SettledExact(env: Env, layered: Ordered<Value>, refs: Ordered<Text>, result: Ordered<Value>, d: string)
    requires Settles(env, layered, refs, result, d)
    ensures HoldsFinal(env, layered, refs, result, d)
  {
    forall i: nat | LastAt(env, refs, i, d)
      ensures Winner(env, layered, refs, d) == if Known(env, layered, refs, d) then Some(refs[i].1) else None
    {
      WinnerExact(env, layered, refs, i, d);
    }
    if forall i :: 0 <= i < |refs| ==> !Belongs(env, refs, i, d) {
      NoneBelongs(env, layered, refs, d);
    }
    NoneKnown(env, layered, refs, d);
    WantedIsKnown(env, layered, refs, d);
  }

  lemma SameFinal(env: Env, layered: Ordered<Value>, refs: Ordered<Text>, a: Ordered<Value>, b: Ordered<Value>,
                  d: string)
    requires HoldsFinal(env, layered, refs, a, d) && Find(b, d) == Find(a, d)
    ensures HoldsFinal(env, layered, refs, b, d)
  {
  }

  /** So does every resolved parameter, the run's own identifiers aside. */
  lemma ResolutionExact(env: Env, context: Context, publishes: bool, clientId: Text, d: string)
    requires d !in {"project_id", "site_id", "client_id"} && Resolution(env, context, publishes, clientId).Success?
    ensures var layered := Layered(env, context, publishes);
      HoldsFinal(env, layered, References(context.secrets, layered),
                 Resolution(env, context, publishes, clientId).value, d)
  {
    FinalAfter(env, context, Layered(env, context, publishes), clientId, d);
  }

  lemma FinalAfter(env: Env, context: Context, layered: Ordered<Value>, clientId: Text, d: string)
    requires d !in {"project_id", "site_id", "client_id"}
    requires ResolveAll(env, layered, References(context.secrets, layered)).Success?
    ensures var refs := References(context.secrets, layered);
      HoldsFinal(env, layered, refs, Identified(context, clientId, ResolveAll(env, layered, refs).value), d)
  {
    var refs := References(context.secrets, layered);
    var resolved := ResolveAll(env, layered, refs).value;
    ResolveAllExact(env, layered, refs);
    SettledExact(env, layered, refs, resolved, d);
    IdentifiedElsewhere(context, clientId, resolved, d);
    SameFinal(env, layered, refs, resolved, Identified(context, clientId, resolved), d);
  }

  /** The run's own identifiers come from the context, whatever the layers and secrets say. */
  lemma IdentifiersExact(env: Env, context: Context, publishes: bool, clientId: Text)
    requires Resolution(env, context, publishes, clientId).Success?
    ensures var result := Resolution(env, context, publishes, clientId).value;
      && Find(result, "project_id") == Some(Str(context.projectId))
      && Find(result, "site_id") == Some(Str(context.siteId))
      && (context.protocolKey.Some? && TextOf("mqtt:") <= context.protocolKey.value ==>
            Find(result, "client_id") == Some(Str(clientId)))
  {
    var layered := Layered(env, context, publishes);
    var resolved := ResolveAll(env, layered, References(context.secrets, layered)).value;
    var p := Put(resolved, "project_id", Str(context.projectId));
    var q := Put(p, "site_id", Str(context.siteId));
    FindPut(resolved, "project_id", Str(context.projectId), "project_id");
    FindPut(p, "site_id", Str(context.siteId), "project_id");
    FindPut(p, "site_id", Str(context.siteId), "site_id");
    FindPut(q, "client_id", Str(clientId), "project_id");
    FindPut(q, "client_id", Str(clientId), "site_id");
    FindPut(q, "client_id", Str(clientId), "client_id");
  }

  // ---- Authorities ----

  /** Reading a candidate: none, or an object that names an import of the context, its digest there, and a count. */
  lemma CandidateExact(env: Env, digests: map<Text, Text>, candidate: Value, id: Text, b: Binding)
    ensures ParseCandidate(env, digests, candidate) == Success(Parsed(id, b)) <==>
      && candidate.Dict?
      && id == env.text(OrNone(Lookup(candidate.entries, "import_id"))) && id != []
      && b.digest == env.lower(env.text(OrNone(Lookup(candidate.entries, "accepted_rows_sha256"))))
      && |b.digest| == 64 && (forall c :: c in b.digest ==> IsHexCharacter(c))
      && env.toInt(OrNone(Lookup(candidate.entries, "accepted_count"))) == Some(b.count) && b.count >= 0
      && id in digests && digests[id] == b.digest
    ensures ParseCandidate(env, digests, candidate) == Success(Skipped) <==> candidate.Null?
  {
  }

  function OrNone(v: Option<Value>): Value {
    if v.Some? then v.value else Null
  }

  predicate IsHexCharacter(c: CodePoint) {
    '0' as int <= c <= '9' as int || 'a' as int <= c <= 'f' as int
  }

  predicate LastMention(resources: seq<(Text, Text)>, i: nat)
    requires i < |resources|
  {
    forall j :: i < j < |resources| ==> resources[j].0 != resources[i].0
  }

  lemma {:induction false} DigestsKnown(resources: seq<(Text, Text)>, id: Text)
    ensures id in Digests(resources) <==> exists i :: 0 <= i < |resources| && resources[i].0 == id
  {
    if resources != [] {
      var n := |resources| - 1;
      DigestsKnown(resources[..n], id);
      if resources[n].0 != id {
        assert forall i :: 0 <= i < n ==> resources[..n][i] == resources[i];
      }
    }
  }

  /** The digest of a resource is that of its last mention. */
  lemma {:induction false} DigestsExact(resources: seq<(Text, Text)>, i: nat)
    requires i < |resources| && LastMention(resources, i)
    ensures resources[i].0 in Digests(resources) && Digests(resources)[resources[i].0] == resources[i].1
  {
    var n := |resources| - 1;
    if i < n {
      var front := resources[..n];
      assert front[i] == resources[i] && LastMention(front, i);
      DigestsExact(front, i);
    }
  }

  /** The candidates: the address authority of the scan contract, and every BACnet authority. */
  lemma CandidatesExact(engine: Ordered<Value>, v: Value)
    ensures v in Candidates(engine) <==> exists contract ::
      && Find(engine, "scan_contract_v1") == Some(Dict(contract))
      && (IpAuthority(contract, v) || BacnetAuthority(contract, v))
  {
    var found: Option<Value> := Find(engine, "scan_contract_v1");
    if found.Some? && found.value.Dict? {
      BacnetExact(found.value.entries, v);
    }
  }

  predicate IpAuthority(contract: seq<Entry>, v: Value) {
    var ip := Lookup(contract, "ip");
    ip.Some? && ip.value.Dict? && v == OrNone(Lookup(ip.value.entries, "authority"))
  }

  ghost predicate BacnetAuthority(contract: seq<Entry>, v: Value) {
    exists bacnet, authorities, key ::
      && Lookup(contract, "bacnet") == Some(Dict(bacnet))
      && Lookup(bacnet, "authorities") == Some(Dict(authorities)) && Entry(key, v) in authorities
  }

  lemma BacnetExact(contract: seq<Entry>, v: Value)
    ensures BacnetAuthority(contract, v) <==>
      match Member(contract, "bacnet")
      case Dict(bacnet) =>
        (match Member(bacnet, "authorities") case Dict(authorities) => v in EntryValues(authorities) case _ => false)
      case _ => false
  {
    var bacnet := Member(contract, "bacnet");
    if bacnet.Dict? && Member(bacnet.entries, "authorities").Dict? {
      var authorities := Member(bacnet.entries, "authorities").entries;
      if v in EntryValues(authorities) {
        var i :| 0 <= i < |authorities| && EntryValues(authorities)[i] == v;
        assert Entry(authorities[i].key, v) in authorities;
      }
      if BacnetAuthority(contract, v) {
        var key :| Entry(key, v) in authorities;
        var i :| 0 <= i < |authorities| && authorities[i] == Entry(key, v);
        assert EntryValues(authorities)[i] == v;
      }
    }
  }
}
